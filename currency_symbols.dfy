/** The currency symbol shown next to an amount (lib/currency.ts). The
    `CURRENCIES` table is not part of this model and is a parameter; the map
    from code to symbol is built from it once, in table order. */
module CurrencySymbols {
  import opened Js

  /** One row of `CURRENCIES`. */
  datatype CurrencyInfo = CurrencyInfo(code: string, currency: string, symbol: string, countries: seq<string>)

  /** Row `i` is the last row of the table with its code. */
  predicate IsLastWithCode(table: seq<CurrencyInfo>, i: int) {
    0 <= i < |table| && forall j :: i < j < |table| ==> table[j].code != table[i].code
  }

  /** `new Map(CURRENCIES.map((entry) => [entry.code, entry.symbol]))`: each pair
      is set in turn, so a later row overwrites an earlier one with the same code. */
  function SymbolByCode(table: seq<CurrencyInfo>): (m: map<string, string>)
    ensures m.Keys == set e | e in table :: e.code
  {
    if table == [] then map[]
    else
      var init := table[..|table| - 1];
      var last := table[|table| - 1];
      assert table == init + [last];
      SymbolByCode(init)[last.code := last.symbol]
  }

  /** The symbol kept for a code is the one of the last row with that code. */
  lemma {:induction false} LastRowWins(table: seq<CurrencyInfo>, i: int)
    requires IsLastWithCode(table, i)
    ensures SymbolByCode(table)[table[i].code] == table[i].symbol
  {
    var init := table[..|table| - 1];
    if i < |table| - 1 {
      assert table[|table| - 1].code != table[i].code;
      assert init[i] == table[i];
      assert IsLastWithCode(init, i) by {
        forall j | i < j < |init|
          ensures init[j].code != init[i].code
        {
          assert init[j] == table[j];
        }
      }
      LastRowWins(init, i);
    }
  }

  /** `getCurrencySymbol`: "$" when there is no currency (null, undefined or
      ""), the table's symbol for a listed code, and the code itself otherwise. */
  function GetCurrencySymbol(currency: Option<string>, table: seq<CurrencyInfo>): (r: string)
    ensures currency.None? || currency == Some("") ==> r == "$"
    ensures currency.Some? && currency.value != "" && (forall i :: 0 <= i < |table| ==> table[i].code != currency.value) ==>
      r == currency.value
    ensures currency.Some? && currency.value != "" && r != currency.value ==> r in SymbolByCode(table).Values
  {
    match currency
    case None => "$"
    case Some(code) =>
      if code == "" then "$"
      else
        var symbols := SymbolByCode(table);
        if code in symbols then symbols[code] else code
  }

  /** A listed code shows the symbol of the last row that lists it. */
  lemma ListedCodeSymbol(table: seq<CurrencyInfo>, i: int)
    requires IsLastWithCode(table, i) && table[i].code != ""
    ensures GetCurrencySymbol(Some(table[i].code), table) == table[i].symbol
  {
    assert table[i] in table;
    LastRowWins(table, i);
  }
}
