/** The logic of the onboarding details screen (app/onboarding/details.tsx): the
    currency search, the gate on the Continue button, and the two handlers that
    change the screen's state and write the store. The React state becomes the
    fields of `DetailsForm`; the navigation becomes the route returned. */
module OnboardingDetails {
  import opened Js
  import opened Storage
  import opened CurrencySymbols
  import opened UserActions
  import opened CurrencyActions

  // ---- filteredCurrencies

  /** `countries.some((country) => country.toLowerCase().includes(search))`. */
  function AnyIncludes(items: seq<string>, search: string): (r: bool)
    ensures r <==> exists k :: 0 <= k < |items| && Includes(ToLowerCase(items[k]), search)
  {
    if items == [] then false
    else Includes(ToLowerCase(items[0]), search) || AnyIncludes(items[1..], search)
  }

  /** The filter's test for one row, against the lower-cased query. */
  predicate Matches(c: CurrencyInfo, search: string) {
    Includes(ToLowerCase(c.code), search)
    || Includes(ToLowerCase(c.currency), search)
    || AnyIncludes(c.countries, search)
  }

  /** `CURRENCIES.filter(...)` for a query. */
  function FilterMatching(table: seq<CurrencyInfo>, search: string): (r: seq<CurrencyInfo>)
    ensures |r| <= |table|
    ensures forall c :: c in r <==> c in table && Matches(c, search)
  {
    if table == [] then []
    else (if Matches(table[0], search) then [table[0]] else []) + FilterMatching(table[1..], search)
  }

  /** Filtering goes row by row: the result keeps the table's order. */
  lemma {:induction false} FilterMatchingAppend(a: seq<CurrencyInfo>, b: seq<CurrencyInfo>, search: string)
    ensures FilterMatching(a + b, search) == FilterMatching(a, search) + FilterMatching(b, search)
  {
    if a == [] {
      assert a + b == b;
    } else {
      assert (a + b)[0] == a[0];
      assert (a + b)[1..] == a[1..] + b;
      FilterMatchingAppend(a[1..], b, search);
    }
  }

  /** `filteredCurrencies`: the whole table for a blank search; otherwise the
      rows whose code, name or a country contains the lower-cased search, which
      is not trimmed. */
  function FilterCurrencies(table: seq<CurrencyInfo>, currencySearch: string): (r: seq<CurrencyInfo>)
    ensures IsBlank(currencySearch) ==> r == table
    ensures !IsBlank(currencySearch) ==> r == FilterMatching(table, ToLowerCase(currencySearch))
    ensures forall c :: c in r ==> c in table
  {
    if Trim(currencySearch) == "" then table
    else FilterMatching(table, ToLowerCase(currencySearch))
  }

  /** The search is not trimmed: " eur" does not find the euro, whose code and
      name contain "eur" but no space. */
  lemma SearchIsNotTrimmed()
    ensures FilterCurrencies([CurrencyInfo("EUR", "Euro", "€", [])], "eur") == [CurrencyInfo("EUR", "Euro", "€", [])]
    ensures FilterCurrencies([CurrencyInfo("EUR", "Euro", "€", [])], " eur") == []
  {
    var euro := CurrencyInfo("EUR", "Euro", "€", []);
    EuroMatches(euro);
    assert ToLowerCase(" eur") == " eur";
    assert ToLowerCase("eur") == "eur";
    assert !IsBlank(" eur") by {
      assert " eur"[1] == 'e';
    }
    assert !IsBlank("eur") by {
      assert "eur"[0] == 'e';
    }
  }

  /** The euro row matches "eur" and does not match " eur". */
  lemma EuroMatches(euro: CurrencyInfo)
    requires euro == CurrencyInfo("EUR", "Euro", "€", [])
    ensures Matches(euro, "eur") && !Matches(euro, " eur")
  {
    assert ToLowerCase("EUR") == "eur";
    assert ToLowerCase("Euro") == "euro";
    assert "eur" <= "eur"[0..];
    assert !Includes("euro", " eur") by {
      forall k | 0 <= k <= 4
        ensures !(" eur" <= "euro"[k..])
      {
        if k == 0 {
          assert " eur"[0] != "euro"[0];
        }
      }
    }
    assert !Includes("eur", " eur") by {
      forall k | 0 <= k <= 3
        ensures !(" eur" <= "eur"[k..])
      {
      }
    }
  }

  // ---- canContinue

  /** `canContinue`: a name that is not blank and a chosen currency. */
  function CanContinue(name: string, selectedCurrency: Option<string>): (r: bool)
    ensures r <==> !IsBlank(name) && selectedCurrency.Some?
  {
    |Trim(name)| > 0 && selectedCurrency.Some?
  }

  const TermsRoute := "/onboarding/terms"

  /** The state of the screen. */
  class DetailsForm {
    var name: string
    var selectedCurrency: Option<string>
    var currencySearch: string
    var isCurrencyDialogOpen: bool

    constructor ()
      ensures name == "" && selectedCurrency == None && currencySearch == "" && !isCurrencyDialogOpen
    {
      name := "";
      selectedCurrency := None;
      currencySearch := "";
      isCurrencyDialogOpen := false;
    }

    /** `handleSelectCurrency`: chooses the code, closes the dialog and clears the
        search, so the next time the dialog opens it lists every currency. */
    method HandleSelectCurrency(code: string)
      modifies this
      ensures selectedCurrency == Some(code)
      ensures !isCurrencyDialogOpen && currencySearch == ""
      ensures name == old(name)
      ensures forall table :: FilterCurrencies(table, currencySearch) == table
    {
      selectedCurrency := Some(code);
      isCurrencyDialogOpen := false;
      currencySearch := "";
    }

    /** `handleContinue`: nothing happens unless the gate holds and a non-empty
        code is chosen. Then the trimmed name is stored, then the currency, and
        the screen moves on to the terms. A name longer than 100 characters passes
        the gate but makes `setUserName` throw before anything is written; an
        unknown code makes `setDefaultCurrency` throw after the name is written. */
    method HandleContinue(store: Store, codes: seq<string>) returns (r: Completion<Option<string>>)
      modifies store
      ensures !CanContinue(name, selectedCurrency) || selectedCurrency == Some("") ==>
        r == Normal(None) && store.entries == old(store.entries)
      ensures CanContinue(name, selectedCurrency) && selectedCurrency != Some("") ==>
        var n := Trim(name);
        var c := selectedCurrency.value;
        if !ValidUserName(n) then
          r == Throw(InvalidName) && store.entries == old(store.entries)
        else if c !in codes then
          r == Throw(InvalidCurrency) && store.entries == old(store.entries)[UserNameKey := JString(n)]
        else
          && r == Normal(Some(TermsRoute))
          && store.entries == old(store.entries)[UserNameKey := JString(n)][DefaultCurrencyKey := JString(c)]
    {
      if !CanContinue(name, selectedCurrency) || selectedCurrency.value == "" {
        return Normal(None);
      }
      var stored := SetUserName(store, Trim(name));
      if stored.Throw? {
        return Throw(stored.error);
      }
      var currency := SetDefaultCurrency(store, codes, selectedCurrency.value);
      if currency.Throw? {
        return Throw(currency.error);
      }
      return Normal(Some(TermsRoute));
    }
  }

  /** After a successful Continue, the stored name reads back as the trimmed name
      and the default currency as the chosen code. */
  lemma ContinueReadBack(entries: Contents, codes: seq<string>, name: string, c: string)
    requires ValidUserName(Trim(name)) && c in codes && c != ""
    ensures var after := entries[UserNameKey := JString(Trim(name))][DefaultCurrencyKey := JString(c)];
      GetUserName(after) == Some(Trim(name)) && GetDefaultCurrency(codes, after) == Some(c)
  {
    var named := entries[UserNameKey := JString(Trim(name))];
    UserNameRoundTrip(entries, Trim(name));
    DefaultCurrencyRoundTrip(codes, named, c);
    assert UserNameKey != DefaultCurrencyKey;
  }

  /** The gate lets through names the store refuses: a trimmed name of 101
      characters passes `canContinue`, and `setUserName` rejects it. */
  lemma GateAdmitsOverlongName(name: string, c: string)
    requires IsTrimmed(name) && |name| == 101
    ensures CanContinue(name, Some(c)) && !ValidUserName(Trim(name))
  {
  }
}
