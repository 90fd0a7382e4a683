/** The post schema as a validity predicate: what a post document must hold
    to be stored, and the defaults applied on creation. */
module PostModel {
  import opened Wrappers
  import opened JsStrings

  datatype LocationInput = LocationInput(city: Option<string>, country: Option<string>)

  /** A post document as submitted: any field may be missing. Numbers are
      JavaScript numbers, modelled as reals. */
  datatype PostInput = PostInput(
    user: Option<string>,
    title: Option<string>,
    mapLink: Option<string>,
    minPrice: Option<real>,
    maxPrice: Option<real>,
    numberOfDays: Option<real>,
    location: Option<LocationInput>,
    description: Option<string>,
    photos: Option<seq<string>>)

  datatype Location = Location(city: string, country: string)

  /** A stored post. `user` is the owning user's `_id`. */
  datatype Post = Post(
    user: string,
    title: string,
    mapLink: string,
    minPrice: real,
    maxPrice: real,
    numberOfDays: real,
    location: Location,
    description: string,
    photos: seq<string>)

  /** The schema paths that carry a validator; `Owner` is the `user` path. */
  datatype Field = Owner | Title | MapLink | MinPrice | MaxPrice | NumberOfDays | City | Country | Description

  /** A validator failure: a `required` path is missing, or a number is
      below its `min`. */
  datatype Violation = Required(field: Field) | BelowMinimum(field: Field)

  function CityOf(p: PostInput): Option<string> {
    if p.location.Some? then p.location.value.city else None
  }

  function CountryOf(p: PostInput): Option<string> {
    if p.location.Some? then p.location.value.country else None
  }

  /** A required string must be a non-empty string. */
  function RequireString(v: Option<string>, f: Field): (r: set<Violation>)
    ensures r == {} <==> Truthy(v)
    ensures r <= {Required(f)}
  {
    if Truthy(v) then {} else {Required(f)}
  }

  /** A required number must be present; one with `min: 0` must not be negative. */
  function RequireNumber(v: Option<real>, f: Field, nonNegative: bool): (r: set<Violation>)
    ensures r == {} <==> v.Some? && (nonNegative ==> v.value >= 0.0)
    ensures Required(f) in r <==> v.None?
    ensures r <= {Required(f), BelowMinimum(f)}
  {
    if v.None? then {Required(f)}
    else if nonNegative && v.value < 0.0 then {BelowMinimum(f)}
    else {}
  }

  /** The schema's validators, field by field: required strings are
      non-empty, required numbers and the owner reference are present, and
      both prices are at least 0. */
  predicate Acceptable(p: PostInput) {
    && p.user.Some?
    && Truthy(p.title)
    && Truthy(p.mapLink)
    && p.minPrice.Some? && p.minPrice.value >= 0.0
    && p.maxPrice.Some? && p.maxPrice.value >= 0.0
    && p.numberOfDays.Some?
    && Truthy(CityOf(p))
    && Truthy(CountryOf(p))
    && Truthy(p.description)
  }

  /** Every validator failure of a submitted post; Mongoose reports them all
      at once rather than stopping at the first. */
  function Violations(p: PostInput): (vs: set<Violation>)
    ensures vs == {} <==> Acceptable(p)
  {
    (if p.user.None? then {Required(Owner)} else {})
    + RequireString(p.title, Title)
    + RequireString(p.mapLink, MapLink)
    + RequireNumber(p.minPrice, MinPrice, true)
    + RequireNumber(p.maxPrice, MaxPrice, true)
    + RequireNumber(p.numberOfDays, NumberOfDays, false)
    + RequireString(CityOf(p), City)
    + RequireString(CountryOf(p), Country)
    + RequireString(p.description, Description)
  }

  /** A missing or empty required string is reported as `required`, by its
      path, including the paths nested under `location`. */
  lemma MissingStringsReported(p: PostInput)
    ensures Required(Title) in Violations(p) <==> !Truthy(p.title)
    ensures Required(City) in Violations(p) <==> !Truthy(CityOf(p))
  {
  }

  /** A missing owner or price is reported as `required`. */
  lemma MissingValuesReported(p: PostInput)
    ensures Required(Owner) in Violations(p) <==> p.user.None?
    ensures Required(MinPrice) in Violations(p) <==> p.minPrice.None?
  {
  }

  /** A negative price is reported as below its minimum. */
  lemma NegativePricesReported(p: PostInput)
    ensures BelowMinimum(MinPrice) in Violations(p) <==> p.minPrice.Some? && p.minPrice.value < 0.0
    ensures BelowMinimum(MaxPrice) in Violations(p) <==> p.maxPrice.Some? && p.maxPrice.value < 0.0
  {
  }

  /** The number of days has no minimum: a negative count is stored. */
  lemma DaysHaveNoMinimum(p: PostInput)
    ensures BelowMinimum(NumberOfDays) !in Violations(p)
  {
  }

  /** What every stored post satisfies. */
  predicate WellFormed(q: Post) {
    && q.title != "" && q.mapLink != "" && q.description != ""
    && q.location.city != "" && q.location.country != ""
    && q.minPrice >= 0.0 && q.maxPrice >= 0.0
  }

  /** `Post.create(input)`: validate, then fill in the `photos` default. */
  function Validate(p: PostInput): (r: Result<Post, set<Violation>>)
    ensures r.Success? <==> Violations(p) == {}
    ensures r.Failure? ==> r.error == Violations(p)
    ensures r.Success? ==> WellFormed(r.value)
    ensures r.Success? ==>
      && Some(r.value.user) == p.user
      && Some(r.value.title) == p.title
      && Some(r.value.mapLink) == p.mapLink
      && Some(r.value.minPrice) == p.minPrice
      && Some(r.value.maxPrice) == p.maxPrice
      && Some(r.value.numberOfDays) == p.numberOfDays
      && Some(r.value.location.city) == CityOf(p)
      && Some(r.value.location.country) == CountryOf(p)
      && Some(r.value.description) == p.description
    ensures r.Success? ==> r.value.photos == p.photos.GetOr([])
  {
    var vs := Violations(p);
    if vs != {} then Failure(vs)
    else
      assert Required(Owner) !in vs && Required(Title) !in vs && Required(MapLink) !in vs;
      assert Required(MinPrice) !in vs && Required(MaxPrice) !in vs && Required(NumberOfDays) !in vs;
      assert Required(City) !in vs && Required(Country) !in vs && Required(Description) !in vs;
      assert BelowMinimum(MinPrice) !in vs && BelowMinimum(MaxPrice) !in vs;
      Success(Post(p.user.value, p.title.value, p.mapLink.value, p.minPrice.value, p.maxPrice.value,
                   p.numberOfDays.value, Location(CityOf(p).value, CountryOf(p).value),
                   p.description.value, p.photos.GetOr([])))
  }

  /** The submission that a stored post came from. */
  function AsInput(q: Post): PostInput {
    PostInput(Some(q.user), Some(q.title), Some(q.mapLink), Some(q.minPrice), Some(q.maxPrice),
              Some(q.numberOfDays), Some(LocationInput(Some(q.location.city), Some(q.location.country))),
              Some(q.description), Some(q.photos))
  }

  /** Round trip: every well-formed post validates back to itself, so the
      validity predicate accepts exactly the well-formed posts. */
  lemma WellFormedPostValidates(q: Post)
    requires WellFormed(q)
    ensures Validate(AsInput(q)) == Success(q)
  {
  }

  /** Only each price's sign is checked: a minimum above the maximum is stored. */
  lemma PriceOrderNotChecked(q: Post)
    requires WellFormed(q)
    requires q.minPrice > q.maxPrice
    ensures Validate(AsInput(q)).Success?
  {
    WellFormedPostValidates(q);
  }

  /** Leaving out `photos` stores the empty list. */
  lemma PhotosDefaultEmpty(p: PostInput)
    requires p.photos.None?
    requires Validate(p).Success?
    ensures Validate(p).value.photos == []
  {
  }
}
