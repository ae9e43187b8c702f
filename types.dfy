/** The record types of the application and their runtime schemas (types.ts).
    Each schema becomes a datatype, an encoder to the JSON object the store
    keeps, and a parser that accepts exactly what the schema accepts. Parsing an
    object keeps only the schema's keys, as the schema library strips unknown
    keys. The currency enumeration is a parameter `codes`: its table is not
    part of this model. */
module Types {
  import opened Js

  datatype BrandfetchSearchInput = BrandfetchSearchInput(query: string)

  datatype BrandfetchCompany = BrandfetchCompany(
    icon: Option<string>,
    name: Option<string>,
    domain: string,
    claimed: bool,
    brandId: string)

  datatype List = List(id: string, name: string)

  datatype Frequency = Daily | Weekly | Monthly | Yearly

  /** A subscription embeds a whole list record and carries a free-trial flag. */
  datatype Subscription = Subscription(
    id: string,
    company: BrandfetchCompany,
    list: List,
    frequency: Frequency,
    amount: real,
    currency: string,
    isFreeTrial: bool)

  /** The list schema without its `id` (what `createList` validates). */
  datatype ListInput = ListInput(name: string)

  /** The subscription schema without its `id` (what `createSubscription` validates). */
  datatype SubscriptionInput = SubscriptionInput(
    company: BrandfetchCompany,
    list: List,
    frequency: Frequency,
    amount: real,
    currency: string,
    isFreeTrial: bool)

  function WithId(id: string, input: SubscriptionInput): Subscription {
    Subscription(id, input.company, input.list, input.frequency, input.amount, input.currency, input.isFreeTrial)
  }

  function WithoutId(s: Subscription): SubscriptionInput {
    SubscriptionInput(s.company, s.list, s.frequency, s.amount, s.currency, s.isFreeTrial)
  }

  /** The only constraint of the subscription schema that the datatype does not
      already impose: the currency is one of the enumeration's codes. The amount
      has no bound. */
  predicate ValidSubscription(codes: seq<string>, s: Subscription) {
    s.currency in codes
  }

  // ---- Reading the fields of a JSON object

  function StringField(m: map<string, Json>, key: string): Option<string> {
    if key in m && m[key].JString? then Some(m[key].s) else None
  }

  function BoolField(m: map<string, Json>, key: string): Option<bool> {
    if key in m && m[key].JBool? then Some(m[key].b) else None
  }

  function NumberField(m: map<string, Json>, key: string): Option<real> {
    if key in m && m[key].JNumber? then Some(m[key].n) else None
  }

  /** An optional string field: a missing key reads as `Some(None)`; a present key
      must hold a string. */
  function OptionalStringField(m: map<string, Json>, key: string): Option<Option<string>> {
    if key !in m then Some(None)
    else if m[key].JString? then Some(Some(m[key].s))
    else None
  }

  /** The object with only the given keys kept. */
  function Restrict(j: Json, keys: set<string>): Json
    requires j.JObject?
  {
    JObject(map k | k in j.fields && k in keys :: j.fields[k])
  }

  // ---- BrandfetchSearchInput

  const SearchInputKeys: set<string> := {"query"}

  function EncodeSearchInput(x: BrandfetchSearchInput): Json {
    JObject(map["query" := JString(x.query)])
  }

  function ParseSearchInput(j: Json): (r: Option<BrandfetchSearchInput>)
    ensures r.Some? <==> j.JObject? && StringField(j.fields, "query").Some?
    ensures r.Some? ==> EncodeSearchInput(r.value) == Restrict(j, SearchInputKeys)
  {
    if j.JObject? && StringField(j.fields, "query").Some? then
      var r := BrandfetchSearchInput(j.fields["query"].s);
      assert EncodeSearchInput(r).fields == Restrict(j, SearchInputKeys).fields;
      Some(r)
    else None
  }

  lemma SearchInputRoundTrip(x: BrandfetchSearchInput)
    ensures ParseSearchInput(EncodeSearchInput(x)) == Some(x)
  {
  }

  // ---- BrandfetchCompany

  const CompanyKeys: set<string> := {"icon", "name", "domain", "claimed", "brandId"}

  function EncodeCompany(c: BrandfetchCompany): Json {
    var base := map["domain" := JString(c.domain), "claimed" := JBool(c.claimed), "brandId" := JString(c.brandId)];
    var withIcon := if c.icon.Some? then base["icon" := JString(c.icon.value)] else base;
    JObject(if c.name.Some? then withIcon["name" := JString(c.name.value)] else withIcon)
  }

  /** `domain`, `claimed` and `brandId` are required; `icon` and `name` may be
      missing but, when present, must be strings. */
  function ParseCompany(j: Json): (r: Option<BrandfetchCompany>)
    ensures r.Some? <==>
      && j.JObject?
      && OptionalStringField(j.fields, "icon").Some?
      && OptionalStringField(j.fields, "name").Some?
      && StringField(j.fields, "domain").Some?
      && BoolField(j.fields, "claimed").Some?
      && StringField(j.fields, "brandId").Some?
    ensures r.Some? ==> EncodeCompany(r.value) == Restrict(j, CompanyKeys)
  {
    if !j.JObject? then None
    else
      var m := j.fields;
      var icon := OptionalStringField(m, "icon");
      var name := OptionalStringField(m, "name");
      var domain := StringField(m, "domain");
      var claimed := BoolField(m, "claimed");
      var brandId := StringField(m, "brandId");
      if icon.None? || name.None? || domain.None? || claimed.None? || brandId.None? then None
      else
        var c := BrandfetchCompany(icon.value, name.value, domain.value, claimed.value, brandId.value);
        assert EncodeCompany(c).fields.Keys == Restrict(j, CompanyKeys).fields.Keys;
        Some(c)
  }

  lemma CompanyRoundTrip(c: BrandfetchCompany)
    ensures ParseCompany(EncodeCompany(c)) == Some(c)
  {
  }

  // ---- List

  const ListKeys: set<string> := {"id", "name"}

  function EncodeList(l: List): Json {
    JObject(map["id" := JString(l.id), "name" := JString(l.name)])
  }

  function ParseList(j: Json): (r: Option<List>)
    ensures r.Some? <==> j.JObject? && StringField(j.fields, "id").Some? && StringField(j.fields, "name").Some?
    ensures r.Some? ==> EncodeList(r.value) == Restrict(j, ListKeys)
  {
    if j.JObject? && StringField(j.fields, "id").Some? && StringField(j.fields, "name").Some? then
      var l := List(j.fields["id"].s, j.fields["name"].s);
      assert EncodeList(l).fields == Restrict(j, ListKeys).fields;
      Some(l)
    else None
  }

  /** Every list record is valid, whatever its strings, the empty ones included. */
  lemma ListRoundTrip(l: List)
    ensures ParseList(EncodeList(l)) == Some(l)
  {
  }

  /** The list schema without `id`: an object with a string `name`. */
  function ParseListInput(j: Json): (r: Option<ListInput>)
    ensures r.Some? <==> j.JObject? && StringField(j.fields, "name").Some?
    ensures r.Some? ==> r.value.name == j.fields["name"].s
  {
    if j.JObject? && StringField(j.fields, "name").Some? then Some(ListInput(j.fields["name"].s)) else None
  }

  // ---- Currency and frequency

  /** The currency enumeration: exactly the strings listed in `codes`. */
  function ParseCurrency(codes: seq<string>, j: Json): (r: Option<string>)
    ensures r.Some? <==> j.JString? && j.s in codes
    ensures r.Some? ==> r.value == j.s
  {
    if j.JString? && j.s in codes then Some(j.s) else None
  }

  function FrequencyName(f: Frequency): string {
    match f
    case Daily => "daily"
    case Weekly => "weekly"
    case Monthly => "monthly"
    case Yearly => "yearly"
  }

  function ParseFrequency(j: Json): (r: Option<Frequency>)
    ensures r.Some? <==> j.JString? && j.s in {"daily", "weekly", "monthly", "yearly"}
    ensures r.Some? ==> JString(FrequencyName(r.value)) == j
  {
    if j == JString("daily") then Some(Daily)
    else if j == JString("weekly") then Some(Weekly)
    else if j == JString("monthly") then Some(Monthly)
    else if j == JString("yearly") then Some(Yearly)
    else None
  }

  /** The enumeration has exactly four values, with four distinct names, and each
      name parses back to its value. */
  lemma FrequencyRoundTrip(f: Frequency)
    ensures ParseFrequency(JString(FrequencyName(f))) == Some(f)
    ensures f == Daily || f == Weekly || f == Monthly || f == Yearly
  {
  }

  // ---- Subscription

  const SubscriptionKeys: set<string> := {"id", "company", "list", "frequency", "amount", "currency", "isFreeTrial"}

  function EncodeSubscription(s: Subscription): Json {
    JObject(map[
      "id" := JString(s.id),
      "company" := EncodeCompany(s.company),
      "list" := EncodeList(s.list),
      "frequency" := JString(FrequencyName(s.frequency)),
      "amount" := JNumber(s.amount),
      "currency" := JString(s.currency),
      "isFreeTrial" := JBool(s.isFreeTrial)])
  }

  /** The fields of the create schema each pass their own schema: a company, a
      list, a frequency name, a number, a listed currency code and a boolean. */
  predicate InputFieldsParse(codes: seq<string>, m: map<string, Json>) {
    && "company" in m && ParseCompany(m["company"]).Some?
    && "list" in m && ParseList(m["list"]).Some?
    && "frequency" in m && ParseFrequency(m["frequency"]).Some?
    && NumberField(m, "amount").Some?
    && "currency" in m && ParseCurrency(codes, m["currency"]).Some?
    && BoolField(m, "isFreeTrial").Some?
  }

  /** `x` is what the object `m` holds under the create schema's keys, with the
      unknown keys of the nested company and list objects dropped. */
  predicate StrippedInput(x: SubscriptionInput, m: map<string, Json>) {
    && "company" in m && m["company"].JObject? && EncodeCompany(x.company) == Restrict(m["company"], CompanyKeys)
    && "list" in m && m["list"].JObject? && EncodeList(x.list) == Restrict(m["list"], ListKeys)
    && "frequency" in m && m["frequency"] == JString(FrequencyName(x.frequency))
    && "amount" in m && m["amount"] == JNumber(x.amount)
    && "currency" in m && m["currency"] == JString(x.currency)
    && "isFreeTrial" in m && m["isFreeTrial"] == JBool(x.isFreeTrial)
  }

  /** The subscription schema without `id`: an object whose six fields pass their
      schemas; the result keeps those fields and nothing else. */
  function ParseSubscriptionInput(codes: seq<string>, j: Json): (r: Option<SubscriptionInput>)
    ensures r.Some? <==> j.JObject? && InputFieldsParse(codes, j.fields)
    ensures r.Some? ==> StrippedInput(r.value, j.fields) && r.value.currency in codes
  {
    if !j.JObject? then None
    else
      var m := j.fields;
      var company := if "company" in m then ParseCompany(m["company"]) else None;
      var list := if "list" in m then ParseList(m["list"]) else None;
      var frequency := if "frequency" in m then ParseFrequency(m["frequency"]) else None;
      var amount := NumberField(m, "amount");
      var currency := if "currency" in m then ParseCurrency(codes, m["currency"]) else None;
      var isFreeTrial := BoolField(m, "isFreeTrial");
      if company.None? || list.None? || frequency.None? || amount.None? || currency.None? || isFreeTrial.None? then None
      else Some(SubscriptionInput(company.value, list.value, frequency.value, amount.value, currency.value, isFreeTrial.value))
  }

  /** The full subscription schema: the create schema's fields and a string `id`;
      the result keeps those seven fields and nothing else. */
  function ParseSubscription(codes: seq<string>, j: Json): (r: Option<Subscription>)
    ensures r.Some? <==> j.JObject? && StringField(j.fields, "id").Some? && InputFieldsParse(codes, j.fields)
    ensures r.Some? ==>
      && j.fields["id"] == JString(r.value.id)
      && StrippedInput(WithoutId(r.value), j.fields)
      && ValidSubscription(codes, r.value)
  {
    if !j.JObject? then None
    else
      var m := j.fields;
      var id := StringField(m, "id");
      var company := if "company" in m then ParseCompany(m["company"]) else None;
      var list := if "list" in m then ParseList(m["list"]) else None;
      var frequency := if "frequency" in m then ParseFrequency(m["frequency"]) else None;
      var amount := NumberField(m, "amount");
      var currency := if "currency" in m then ParseCurrency(codes, m["currency"]) else None;
      var isFreeTrial := BoolField(m, "isFreeTrial");
      if id.None? || company.None? || list.None? || frequency.None? || amount.None? || currency.None? || isFreeTrial.None? then None
      else Some(Subscription(id.value, company.value, list.value, frequency.value, amount.value, currency.value, isFreeTrial.value))
  }

  /** The create schema is the full schema with `id` omitted: an object passes the
      full schema exactly when it passes the create schema and has a string `id`. */
  lemma SubscriptionSchemaOmitsId(codes: seq<string>, j: Json)
    ensures ParseSubscription(codes, j) ==
      if j.JObject? && StringField(j.fields, "id").Some? && ParseSubscriptionInput(codes, j).Some?
      then Some(WithId(j.fields["id"].s, ParseSubscriptionInput(codes, j).value))
      else None
  {
  }

  /** An encoded subscription parses back to itself exactly when its currency is
      in the enumeration; any amount, negative ones included, is accepted. */
  lemma SubscriptionRoundTrip(codes: seq<string>, s: Subscription)
    ensures ParseSubscription(codes, EncodeSubscription(s)) == (if ValidSubscription(codes, s) then Some(s) else None)
  {
    CompanyRoundTrip(s.company);
    ListRoundTrip(s.list);
    FrequencyRoundTrip(s.frequency);
  }

  /** What `createSubscription` validates: the encoded record minus its `id`
      passes the create schema exactly when the record is valid. */
  lemma SubscriptionInputRoundTrip(codes: seq<string>, s: Subscription)
    ensures ParseSubscriptionInput(codes, EncodeSubscription(s)) == (if ValidSubscription(codes, s) then Some(WithoutId(s)) else None)
    ensures WithId(s.id, WithoutId(s)) == s
  {
    CompanyRoundTrip(s.company);
    ListRoundTrip(s.list);
    FrequencyRoundTrip(s.frequency);
  }
}
