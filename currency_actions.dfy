/** The default-currency preference (actions/currency.ts): validated on write,
    read back as null when absent or not a code of the enumeration. */
module CurrencyActions {
  import opened Js
  import opened Types
  import opened Storage

  const DefaultCurrencyKey := "default_currency"

  /** `getCurrencies`: the enumeration's table itself. */
  function GetCurrencies(codes: seq<string>): (r: seq<string>)
    ensures r == codes
  {
    codes
  }

  /** `setDefaultCurrency`: a code outside the enumeration throws "Invalid
      currency" and writes nothing; a valid code is stored and returned. */
  method SetDefaultCurrency(store: Store, codes: seq<string>, currency: string) returns (r: Completion<string>)
    modifies store
    ensures currency !in codes ==> r == Throw(InvalidCurrency) && store.entries == old(store.entries)
    ensures currency in codes ==>
      r == Normal(currency) && store.entries == old(store.entries)[DefaultCurrencyKey := JString(currency)]
  {
    var validated := ParseCurrency(codes, JString(currency));
    if validated.None? {
      return Throw(InvalidCurrency);
    }
    store.Set(DefaultCurrencyKey, JString(validated.value));
    return Normal(validated.value);
  }

  /** `getDefaultCurrency`: a falsy or absent stored value gives null, and so
      does a stored value that is not a code of the enumeration; there is no
      fallback code. */
  function GetDefaultCurrency(codes: seq<string>, entries: Contents): (r: Option<string>)
    ensures r.Some? <==>
      DefaultCurrencyKey in entries && entries[DefaultCurrencyKey].JString?
      && entries[DefaultCurrencyKey].s in codes && entries[DefaultCurrencyKey].s != ""
    ensures r.Some? ==> entries[DefaultCurrencyKey] == JString(r.value) && r.value in codes
  {
    var stored := Get(entries, DefaultCurrencyKey);
    if stored.None? || !Truthy(stored.value) then None
    else ParseCurrency(codes, stored.value)
  }

  /** What `setDefaultCurrency` stores, `getDefaultCurrency` reads back (for any
      non-empty code; the empty string is falsy and would read as null). */
  lemma DefaultCurrencyRoundTrip(codes: seq<string>, entries: Contents, c: string)
    requires c in codes && c != ""
    ensures GetDefaultCurrency(codes, entries[DefaultCurrencyKey := JString(c)]) == Some(c)
  {
  }
}
