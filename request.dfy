/** The create/update request body (`SubscriptionRequest`): its field defaults
    and the bean-validation constraints the controller checks with `@Valid`. */
module Request {
  import opened Results
  import opened Validation

  /** Every field is nullable. `price` is a `BigDecimal` with two decimals,
      held here as a whole number of cents. */
  datatype SubscriptionRequest = SubscriptionRequest(
    name: Option<string>,
    description: Option<string>,
    price: Option<int>,
    currency: Option<string>,
    category: Option<string>,
    billingPeriod: Option<string>,
    websiteUrl: Option<string>,
    logoUrl: Option<string>)

  /** `@NotNull @Positive` on the price. */
  predicate PricePositive(price: Option<int>) {
    price.Some? && price.value > 0
  }

  /** The request passes `@Valid`: `@NotBlank` name, currency and category and a
      present, strictly positive price. Description, billing period and the URLs
      carry no constraint. */
  predicate IsValid(r: SubscriptionRequest): (b: bool)
    ensures b ==> r.name.Some? && r.currency.Some? && r.category.Some?
    ensures b ==> r.price.Some? && r.price.value > 0
  {
    && NotBlank(r.name)
    && PricePositive(r.price)
    && NotBlank(r.currency)
    && NotBlank(r.category)
  }

  /** The no-argument constructor: only the field initialisers have run, so the
      currency is "AZN", the billing period "MONTHLY", and the request is still
      invalid because it has no name. */
  function Empty(): (r: SubscriptionRequest)
    ensures r.currency == Some("AZN") && r.billingPeriod == Some("MONTHLY")
    ensures r.name.None? && r.price.None? && r.category.None?
    ensures !IsValid(r)
  {
    SubscriptionRequest(None, None, None, Some("AZN"), None, Some("MONTHLY"), None, None)
  }

  /** The six-argument constructor. It never sets the two URLs, so they stay null,
      and the request it builds is valid exactly when its arguments are. */
  function Of(name: Option<string>, description: Option<string>, price: Option<int>,
              currency: Option<string>, category: Option<string>,
              billingPeriod: Option<string>): (r: SubscriptionRequest)
    ensures r.websiteUrl.None? && r.logoUrl.None?
    ensures r.name == name && r.description == description && r.price == price
    ensures r.currency == currency && r.category == category && r.billingPeriod == billingPeriod
    ensures IsValid(r) <==> NotBlank(name) && PricePositive(price) && NotBlank(currency) && NotBlank(category)
  {
    SubscriptionRequest(name, description, price, currency, category, billingPeriod, None, None)
  }

  /** What `@Valid` accepts, computed the way Hibernate Validator does it:
      name, currency and category present with something left after `trim()`,
      and a present price above zero. So a blank name, currency or category, or
      a missing or non-positive price, makes the request invalid. */
  lemma ValidityMeaning(r: SubscriptionRequest)
    ensures IsValid(r) <==>
      && r.name.Some? && |Trim(r.name.value)| > 0
      && r.price.Some? && r.price.value > 0
      && r.currency.Some? && |Trim(r.currency.value)| > 0
      && r.category.Some? && |Trim(r.category.value)| > 0
  {
    NotBlankByTrim(r.name);
    NotBlankByTrim(r.currency);
    NotBlankByTrim(r.category);
  }
}
