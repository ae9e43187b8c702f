# Recur core in Dafny

Recur is a subscription tracker for phones. This project models its local core in Dafny and proves properties of that model:

- **Persistence actions.** These cover user lists, subscriptions, the default currency, the user name and the onboarding flag. Each one reads a value from a key-value store, checks it or changes it, and writes it back.
- **Schemas.** The Zod schemas that validate those values.
- **Pure helpers.** These are used by the screens:
  - amount and date parsing and formatting;
  - the avatar colour hash and initials;
  - the test-id slug of emoji categories;
  - the store and share URL fallbacks;
  - the currency-symbol lookup;
  - the currency search and Continue gate of the onboarding details screen, and its two handlers.

How the model is built:

- **Store.** The store is a class holding a map from key to JSON value (`Storage.Store`).
- **Values.** JSON values are the `Js.Json` datatype. Writing a value and reading it back through `JSON.stringify`/`JSON.parse` yields an equal value, so the map holds the values themselves.
- **Reads and writes.** Every read is a function of the map contents. Every write is a method whose `ensures` states the whole new contents. The collection actions read the stored array, change a copy by appending, assigning at an index or splicing, and write the copy back.
- **Exceptions.** An action that throws returns `Throw(error)` from `Js.Completion`. This covers validation failures, and also the `TypeError` that a non-array value or a `null` element in the stored collection causes in `push` or `findIndex`.
- **The onboarding listener set.** It is a class with a sequence of listener identities without duplicates. It also keeps the log of notifications delivered, so the calls made by `forEach` can be stated.

Some pieces are not part of this model and are parameters instead:

- the tables `CURRENCY_CODES` and `CURRENCIES` (`codes`, `table`);
- the fresh id from `generateUUID` (`freshId`);
- `Number(text)` in `parseAmount` (`number`);
- the engine's `new Date(text)` in `formatDateInput` (`parseText`);
- the four URL environment variables (`Links.Environment`).

Modelling conventions:

- **Characters.** A `char` is a Unicode scalar value, which is one UTF-16 code unit inside the Basic Multilingual Plane. `trim` and `\s` use the ECMAScript white-space and line-terminator set. Case mapping is ASCII.
- **Dates.** `new Date(year, monthIndex, day)` is modelled by its calendar arithmetic: days out of range roll into the neighbouring months, and a year in 0..99 means 1900 + year.
- **The avatar hash.** It is computed on unbounded integers, with `hash << 5` written out through ECMAScript ToInt32. `SubscriptionAvatar.NameHashBound` shows the value stays below 2^53 for names shorter than 2^21 characters, so the floating-point arithmetic of the source is exact there.

Two consequences of the code as written are stated as lemmas:

- **Overlong names.** The Continue gate admits a trimmed name of 101 characters, which `setUserName` then refuses with an exception (`OnboardingDetails.GateAdmitsOverlongName`, `OnboardingDetails.DetailsForm.HandleContinue`).
- **Untrimmed search.** The currency search is lower-cased but not trimmed, so a leading space changes what it finds (`OnboardingDetails.SearchIsNotTrimmed`).

## Model

| member | source | states |
|---|---|---|
| Storage.Get | clients/mmkv.ts:15-22 | `get` yields the stored value for a key that is present and null for an absent one |
| Storage.Store.constructor | clients/mmkv.ts:7-9 | a new store holds no keys |
| Storage.Store.Set | clients/mmkv.ts:11-13 | `set` overwrites that key; every other key reads as before |
| Storage.Store.Delete | clients/mmkv.ts:24-26 | `delete` makes the key read as absent; every other key reads as before |
| Js.Trim | lib/validation.ts:4 | `trim` yields the input minus its leading and trailing white space: a run of the input with only white space before and after it, itself with no white space at either end; it is empty exactly for a blank input, and a trimmed text is left unchanged |
| Types.ParseSearchInput | types.ts:4-6 | the search input schema accepts exactly objects with a string `query`, and strips every other key |
| Types.SearchInputRoundTrip | types.ts:4-6 | every search input passes its own schema unchanged |
| Types.ParseCompany | types.ts:10-16 | the company schema accepts exactly objects with string `domain` and `brandId`, boolean `claimed`, and `icon`/`name` that are absent or strings; the result is the object stripped to those keys |
| Types.CompanyRoundTrip | types.ts:10-16 | every company record, with or without icon and name, passes the schema unchanged |
| Types.ParseList | types.ts:24-27 | the list schema accepts exactly objects with string `id` and `name`, and strips every other key |
| Types.ListRoundTrip | types.ts:24-27 | every list record passes the schema, empty strings included |
| Types.ParseListInput | actions/list.ts:5 | the create schema (list without `id`) accepts exactly objects with a string `name` and keeps that name |
| Types.ParseCurrency | types.ts:31 | the currency enumeration accepts exactly the strings of the code table |
| Types.ParseFrequency | types.ts:35 | the frequency enumeration accepts exactly "daily", "weekly", "monthly" and "yearly", and the parsed value names the input |
| Types.FrequencyRoundTrip | types.ts:35 | there are exactly four frequencies, and each name parses back to its value |
| Types.ParseSubscriptionInput | actions/subscription.ts:7-9 | the create schema accepts exactly the objects whose company, list, frequency, amount, currency and `isFreeTrial` each pass their schema (a missing field or one of the wrong type is refused); the result is the object's six fields with unknown keys dropped, nested ones included, and its currency is listed |
| Types.ParseSubscription | types.ts:39-47 | the full schema accepts exactly the objects with a string `id` whose other six fields pass the create schema; the result is those seven fields with unknown keys dropped, and it is a valid subscription |
| Types.SubscriptionSchemaOmitsId | actions/subscription.ts:7-9 | an object passes the full subscription schema exactly when it passes the create schema and has a string `id`, and then the record is the created one with that id |
| Types.SubscriptionRoundTrip | types.ts:39-47 | an encoded subscription (embedded list, four-valued frequency, any amount including negatives, boolean `isFreeTrial`) parses back to itself exactly when its currency is in the table |
| Types.SubscriptionInputRoundTrip | actions/subscription.ts:7-9 | a subscription without its id passes the create schema exactly when it is valid, and adding the id back restores it |
| Collection.FindIndexById | actions/list.ts:35 | `findIndex` on `id` yields the first matching index with every earlier element passed over, or -1 when nothing matches, or throws at a null element met before a match |
| Collection.FoundAtFirstMatch | actions/list.ts:35 | the search stops at the first match, whatever follows it |
| Collection.RemoveAt | actions/list.ts:51 | `splice(index, 1)` removes exactly that element; the ones before stay, the ones after move down by one |
| Collection.ReplaceKeepsIndex | actions/list.ts:37 | assigning a matching element at the found index keeps it the first match, so a repeated replacement changes nothing more |
| ListActions.GetLists | actions/list.ts:59-61 | `getLists` yields an empty array when nothing is stored, and otherwise the stored value as it is, never repaired |
| ListActions.CreateList | actions/list.ts:11-29 | invalid input throws with no write; otherwise the list with the fresh id and the input name is appended after every earlier element and returned |
| ListActions.UpdateList | actions/list.ts:31-43 | without validation, the first element with the argument's id is replaced at its index and the argument returned; with no match it returns null and writes nothing |
| ListActions.RemoveList | actions/list.ts:45-57 | the first element with the argument's id is spliced out, the rest keep their order, and the argument is returned; with no match it returns null and writes nothing; only `lists` changes |
| ListActions.CreatedListReadBack | actions/list.ts:24-28 | after a create, `getLists` yields the new array, and its last element parses back to the returned list |
| ListActions.UpdateListIdempotent | actions/list.ts:35-39 | a second identical update finds the same index and writes the same array |
| SubscriptionActions.GetSubscriptions | actions/subscription.ts:58-60 | `getSubscriptions` yields an empty array when nothing is stored, and otherwise the stored value as it is |
| SubscriptionActions.CreateSubscription | actions/subscription.ts:13-29 | invalid input throws with no write; otherwise the record gets the fresh id (the validated data has none), is valid, is appended and is returned |
| SubscriptionActions.UpdateSubscription | actions/subscription.ts:31-43 | without validation, the first element with the argument's id is replaced in place and the argument returned; with no match it returns null and writes nothing |
| SubscriptionActions.RemoveSubscription | actions/subscription.ts:45-56 | the first matching element is spliced out with a write only when one was found, and the result is null either way |
| SubscriptionActions.CreatedSubscriptionReadBack | actions/subscription.ts:19-28 | after a create, the last stored element parses back to the returned record |
| CurrencyActions.GetCurrencies | actions/currency.ts:11-13 | `getCurrencies` yields the code table itself |
| CurrencyActions.SetDefaultCurrency | actions/currency.ts:19-31 | a code outside the table throws "Invalid currency" with no write; a listed code is stored under `default_currency` and returned |
| CurrencyActions.GetDefaultCurrency | actions/currency.ts:33-49 | the stored currency is read back exactly when it is a non-empty string in the table; absent or invalid values give null, with no fallback code |
| CurrencyActions.DefaultCurrencyRoundTrip | actions/currency.ts:19-49 | after a listed code is set, `getDefaultCurrency` yields that code |
| UserActions.SetUserName | actions/user.ts:14-23 | names of 1 to 100 characters are stored untrimmed and returned; any other name throws "Invalid name" with no write |
| UserActions.GetUserName | actions/user.ts:25-40 | the stored name is read back exactly when it is a string of 1 to 100 characters; absent, empty or overlong values give null |
| UserActions.UserNameRoundTrip | actions/user.ts:14-40 | after a successful `setUserName`, `getUserName` yields the same name |
| UserActions.IsOnboardingComplete | actions/user.ts:59-62 | the flag holds exactly when the stored value is the boolean `true` |
| UserActions.Added | actions/user.ts:47 | `Set.add` appends a new listener and leaves a registered one where it is, so there are never duplicates |
| UserActions.Without | actions/user.ts:49 | `Set.delete` removes exactly that listener, keeping the others and keeping them distinct; an absent listener leaves the registry unchanged |
| UserActions.WithoutAppend | actions/user.ts:49 | deleting from a concatenation deletes from each part, so the order of the rest is kept |
| UserActions.WithoutCutsOut | actions/user.ts:49 | in a registry without duplicates, deleting a present listener cuts it out at its position and leaves the others in their insertion order |
| UserActions.NotifyAll | actions/user.ts:56 | `forEach` calls each listener once, in registration order, with the value given |
| UserActions.UnsubscribedListenerNotNotified | actions/user.ts:46-57 | a listener removed by its unsubscribe function receives no later notification, and subscribing twice equals subscribing once |
| UserActions.Onboarding.constructor | actions/user.ts:44 | the listener set starts empty |
| UserActions.Onboarding.Subscribe | actions/user.ts:46-47 | `subscribeToOnboarding` adds the listener with set semantics and notifies no one |
| UserActions.Onboarding.Unsubscribe | actions/user.ts:48-50 | the returned function removes that listener and no other |
| UserActions.Onboarding.SetOnboardingComplete | actions/user.ts:54-57 | stores `true` under `onboarding_complete`, so `isOnboardingComplete` holds, then calls every registered listener with `true`, in order |
| Validation.RemoveCommas | lib/validation.ts:4 | the result holds every character of the input except commas, and no comma |
| Validation.RemoveCommasAppend | lib/validation.ts:4 | removing commas works piece by piece over a concatenation |
| Validation.AmountText | lib/validation.ts:4 | the normalised amount text is the comma-free input minus its surrounding white space: no comma, and no white space at either end |
| Validation.AmountTextIdempotent | lib/validation.ts:4 | normalising a normalised amount text changes nothing |
| Validation.ParseAmount | lib/validation.ts:3-9 | null for a text that is empty once normalised; otherwise a non-negative finite number converted from the normalised text, or null when that conversion is not finite or is negative |
| Validation.AmountIgnoresCommas | lib/validation.ts:3-9 | inserting a comma anywhere in the input leaves the parsed amount unchanged |
| Validation.RollOver | lib/validation.ts:22 | `new Date(y, m, d)` always lands on an existing calendar day |
| Validation.RollOverDayBound | lib/validation.ts:22 | carrying an overflowing day forward never yields a later day of the month than the one asked for |
| Validation.RollOverKeeps | lib/validation.ts:22-29 | the Date constructor keeps year, month and day exactly when the day exists in that month, and otherwise changes the day |
| Validation.NewDate | lib/validation.ts:22 | the Date constructor with a month index always yields a valid date |
| Validation.NewDateKeeps | lib/validation.ts:22-29 | the date survives the constructor exactly when the day exists and the year is not in 0..99, which the constructor maps into the 1900s |
| Validation.ParseDateInput | lib/validation.ts:11-32 | accepts exactly a trimmed `dddd-dd-dd` whose year is at least 100 and whose month and day form an existing calendar date, and yields that date; rejects months outside 1..12, day 00, 29 February of common years and the 31st of 30-day months |
| Validation.FormatDate | lib/validation.ts:37-41 | an invalid date gives ""; every valid date gives the year as `String` writes it, then `-MM-dd` with two-digit month and day fields that read back as the date's month and day; for a year in 1000..9999 the text matches the date pattern and its fields read back as the date |
| Validation.FormatParts | lib/validation.ts:38-41 | every valid date is written as its year, a hyphen, the two-digit month, a hyphen and the two-digit day |
| Validation.YearWritten | lib/validation.ts:38-41 | `String(year)` writes the year: its digits without a leading zero, after a minus sign for a negative year |
| Validation.FormatDateInput | lib/validation.ts:34-42 | a missing value or the empty string gives ""; a Date is formatted; other text goes through the engine's date parsing first |
| Validation.FormatAfterParse | lib/validation.ts:11-42 | formatting the date parsed from a text with a year of 1000 or more gives back the trimmed text |
| Validation.FormatOfPattern | lib/validation.ts:34-42 | a `dddd-dd-dd` text whose year has no leading zero is the formatted text of the date its fields name |
| Validation.ParseAfterFormat | lib/validation.ts:11-42 | parsing the formatted text of an existing date with a year in 1000..9999 gives the date back |
| Validation.ParseOfPattern | lib/validation.ts:11-32 | a `dddd-dd-dd` text naming an existing day of a year from 100 on parses to that day |
| Validation.DigitsRoundTrip | lib/validation.ts:39-41 | a digit string without a leading zero is exactly how `String` writes its value |
| Validation.TwoDigitsRoundTrip | lib/validation.ts:39-40 | two digits are exactly how `padStart(2, '0')` writes their value |
| SubscriptionAvatar.ToInt32 | components/subscription-avatar.tsx:24 | ToInt32 yields a signed 32-bit value congruent to its input modulo 2^32, and leaves 32-bit values unchanged |
| SubscriptionAvatar.ShiftLeft5 | components/subscription-avatar.tsx:24 | `hash << 5` is a signed 32-bit value |
| SubscriptionAvatar.NameHashAppend | components/subscription-avatar.tsx:22-25 | the hash loop over `a + b` continues from the hash of `a` |
| SubscriptionAvatar.NameHashBound | components/subscription-avatar.tsx:22-25 | the hash grows by less than 2^31 + 2^21 per character, so it stays an exact integer in floating point for any realistic name |
| SubscriptionAvatar.Palette | components/subscription-avatar.tsx:18-20 | each scheme has eight colours |
| SubscriptionAvatar.GetThemeColor | components/subscription-avatar.tsx:16-28 | the loop computes the name's hash, and the colour is the entry at its absolute value modulo 8: always one of the scheme's eight, the first for the empty name |
| SubscriptionAvatar.SplitOnWhitespace | components/subscription-avatar.tsx:40 | `split(/\s+/)` yields at least one piece, none containing white space; the first is the text up to the first white space, and there is one piece exactly when there is no white space |
| SubscriptionAvatar.GetInitials | components/subscription-avatar.tsx:35-45 | "?" for a blank name, and otherwise one or two characters, never empty |
| SubscriptionAvatar.InitialsOfTrimmed | components/subscription-avatar.tsx:37-44 | on the trimmed name: "?" when it is empty, and always one or two characters |
| SubscriptionAvatar.SplitPiecesHaveNoSpace | components/subscription-avatar.tsx:40 | no piece of `split(/\s+/)` contains white space |
| SubscriptionAvatar.OneWordInitials | components/subscription-avatar.tsx:44 | a one-word name gives its first two characters upper-cased (one for a one-letter name) |
| SubscriptionAvatar.TwoWordInitials | components/subscription-avatar.tsx:40-43 | a name of two or more words gives the upper-cased first characters of its first two words |
| SubscriptionAvatar.SplitSecondWord | components/subscription-avatar.tsx:40-42 | after the first white-space run, the second piece of the split starts at the next non-space character |
| EmojiPicker.DropNonAlnum | components/emoji-picker.tsx:18 | drops exactly the leading run of characters outside `[a-z0-9]` |
| EmojiPicker.ReplaceRuns | components/emoji-picker.tsx:18 | the result is empty exactly when the input is; a leading letter or digit is kept and a leading run of other characters becomes one hyphen |
| EmojiPicker.ReplaceRunsShape | components/emoji-picker.tsx:18 | the result has only `a-z`, `0-9` and hyphens, never two hyphens in a row |
| EmojiPicker.DropNonAlnumAppend | components/emoji-picker.tsx:18 | skipping the leading run of a text that ends in a letter or digit leaves whatever follows that text untouched |
| EmojiPicker.DropNonAlnumRun | components/emoji-picker.tsx:18 | a run without letters or digits before a text that starts with one is skipped whole |
| EmojiPicker.ReplaceRunsSeparator | components/emoji-picker.tsx:18 | when a run of other characters sits between a part ending in a letter or digit and a part starting with one, the run becomes exactly one hyphen and each part is replaced on its own: `ReplaceRuns(a + sep + b) == ReplaceRuns(a) + "-" + ReplaceRuns(b)` |
| EmojiPicker.ReplaceRunsKeeps | components/emoji-picker.tsx:18 | replacing runs keeps every letter and digit, in order |
| EmojiPicker.StripLeadingDashes | components/emoji-picker.tsx:19 | the result is a suffix of the input, everything removed is a hyphen, and it does not start with a hyphen: the leading hyphens are removed and nothing else |
| EmojiPicker.StripTrailingDashes | components/emoji-picker.tsx:19 | the result is a prefix of the input, everything removed is a hyphen, and it does not end with a hyphen: the trailing hyphens are removed and nothing else |
| EmojiPicker.StripDashes | components/emoji-picker.tsx:19 | the result neither starts nor ends with a hyphen, keeps the slug shape of its input, and leaves a text without end hyphens unchanged |
| EmojiPicker.Slugify | components/emoji-picker.tsx:18-19 | after both `replace` steps the text has only `a-z`, `0-9` and single hyphens, with no hyphen at either end |
| EmojiPicker.ConsKeepsShape | components/emoji-picker.tsx:18 | putting a letter, a digit, or a hyphen not followed by a hyphen before a slug-shaped text keeps it slug-shaped |
| EmojiPicker.ToTestIdSegment | components/emoji-picker.tsx:14-19 | the slug has only `a-z`, `0-9` and '-', no hyphen at either end and never two in a row |
| EmojiPicker.SlugKeepsLettersAndDigits | components/emoji-picker.tsx:14-19 | the slug keeps exactly the letters and digits of the trimmed, lower-cased input, in order |
| EmojiPicker.RunAfterDash | components/emoji-picker.tsx:18 | in slug-shaped text the run a hyphen starts is that hyphen alone |
| EmojiPicker.ReplaceRunsOfSlug | components/emoji-picker.tsx:18 | replacing runs leaves slug-shaped text unchanged |
| EmojiPicker.SlugIsFixed | components/emoji-picker.tsx:14-19 | slug-shaped text is its own slug |
| EmojiPicker.ToTestIdSegmentIdempotent | components/emoji-picker.tsx:14-19 | slugging a slug gives it back |
| EmojiPicker.SlugifySeparatesWords | components/emoji-picker.tsx:18-19 | two slug words with any non-empty run of characters outside `[a-z0-9]` between them slug to the two words joined by one hyphen |
| EmojiPicker.TestIdOfTwoWords | components/emoji-picker.tsx:14-19 | two slug words with a space between them give the two words joined by one hyphen ("my list" gives "my-list") |
| Links.Normalize | const/links.ts:1 | a missing value gives "", a present one gives its `trim()`, and the result is empty exactly for a blank value |
| Links.NormalizeIdempotent | const/links.ts:1 | normalising twice equals normalising once |
| Links.Configure | const/links.ts:3-6 | each URL constant is its own environment variable normalised (iOS store, Play store, website, Discord invite), so each is trimmed |
| Links.ConfiguredStoreUrls | const/links.ts:3-10 | on iOS and Android the store URL is that platform's own variable trimmed, empty exactly when the variable is missing or blank |
| Links.FirstNonEmpty | const/links.ts:11 | a non-empty result is a candidate with only empty candidates before it, so it is the first non-empty one; "" exactly when every candidate is empty |
| Links.GetAppStoreUrl | const/links.ts:8-12 | "ios" gives the iOS URL, "android" the Play URL, and any other platform the first non-empty of website, iOS and Play URLs |
| Links.GetShareUrl | const/links.ts:14-16 | the website URL whenever it is set, otherwise the store URL of the platform |
| Links.ShareUrlOffPlatform | const/links.ts:8-16 | off iOS and Android the share and store URLs coincide, and are empty only when no URL is configured |
| CurrencySymbols.SymbolByCode | lib/currency.ts:4-6 | the map has exactly the table's codes as keys |
| CurrencySymbols.LastRowWins | lib/currency.ts:4-6 | for a code listed twice, the later row's symbol is kept |
| CurrencySymbols.GetCurrencySymbol | lib/currency.ts:8-11 | no currency or "" gives "$"; an unlisted code gives the code itself; any other result is a symbol of the table |
| CurrencySymbols.ListedCodeSymbol | lib/currency.ts:4-11 | a listed code gives the symbol of the last row listing it |
| OnboardingDetails.AnyIncludes | app/onboarding/details.tsx:39 | `some` holds exactly when some country, lower-cased, contains the query |
| OnboardingDetails.FilterMatching | app/onboarding/details.tsx:35-40 | the filter keeps exactly the table's rows whose code, name or a country contains the query, and is never longer than the table |
| OnboardingDetails.FilterMatchingAppend | app/onboarding/details.tsx:35-40 | filtering goes row by row, so the result is a subsequence in table order |
| OnboardingDetails.FilterCurrencies | app/onboarding/details.tsx:30-41 | a blank search lists the whole table; any other search filters by the lower-cased, untrimmed query, and only rows of the table come out |
| OnboardingDetails.SearchIsNotTrimmed | app/onboarding/details.tsx:34 | "eur" finds the euro row but " eur" does not |
| OnboardingDetails.CanContinue | app/onboarding/details.tsx:48 | the gate holds exactly for a non-blank name with a chosen currency |
| OnboardingDetails.DetailsForm.constructor | app/onboarding/details.tsx:24-27 | the screen starts with an empty name, no currency, an empty search and the dialog closed |
| OnboardingDetails.DetailsForm.HandleSelectCurrency | app/onboarding/details.tsx:58-62 | selects the code, closes the dialog and clears the search, after which the filter lists the whole table |
| OnboardingDetails.DetailsForm.HandleContinue | app/onboarding/details.tsx:50-56 | does nothing without the gate or with an empty code; otherwise stores the trimmed name, then the currency, then goes to the terms; an invalid name throws before any write, an unknown code throws after the name is written |
| OnboardingDetails.ContinueReadBack | app/onboarding/details.tsx:50-56 | after a successful Continue, the stored name reads back as the trimmed name and the default currency as the chosen code |
| OnboardingDetails.GateAdmitsOverlongName | app/onboarding/details.tsx:48-53 | a trimmed name of 101 characters passes the gate, but `setUserName` refuses it |

## Left out

- Rendering, styling, animation and navigation are not modelled. The only part of navigation kept is the route `handleContinue` pushes.
- `clients/mmkv.ts` is modelled by its map contract only. JSON text is not modelled, and neither is the native store.
- `Number(text)` in `parseAmount`, and date-string parsing in `formatDateInput`, are engine-defined floating-point conversions. They are function parameters.
- Time zones are left out. A Date is its local calendar day.
- `todayDateInput` is left out because it reads the clock.
- Unicode case mapping beyond ASCII is left out, and so are characters outside the Basic Multilingual Plane. JavaScript counts such a character as two UTF-16 code units, while the model counts it as one `char`. So for names with such characters, the model does not capture the length bound of 100 in `UserActions.ValidUserName`, `slice(0, 2)` in `SubscriptionAvatar.GetInitials`, or the `charCodeAt` values in `SubscriptionAvatar.NameHash`.
- `CURRENCY_CODES` and `CURRENCIES` are not part of this model. They are parameters.
- `generateUUID` is a parameter. Ids are not proved unique because the code never checks them.
- A listener that subscribes or unsubscribes while `forEach` runs is not modelled. Listeners are identities, and a call to one has no effect on the model's state.
- The logger calls are left out.
- The Brandfetch response schema (`types.ts:20`) is left out because no core operation uses it.
- Validation.ParseAmount: JavaScript numbers are modelled as exact reals, so rounding to double precision is not captured.
- SubscriptionAvatar.GetThemeColor: the hash is exact only while it stays below 2^53. `NameHashBound` shows this holds for names shorter than 2^21 characters. Longer names are not modelled.
- SubscriptionAvatar.GetInitials: upper-casing is ASCII-only and keeps the length. A full Unicode `toUpperCase` can lengthen a character, so the bound of two holds only for such input.
- CurrencyActions.SetDefaultCurrency: takes the code itself rather than the `{ currency }` argument object. A call whose argument is not such an object is not modelled.
- ListActions.UpdateList: takes a `List` record rather than the `{ list }` argument object. The source stores whatever object it is given, so extra keys and values outside the record type are not modelled.
- ListActions.RemoveList: takes a `List` record rather than the `{ list }` argument object. Only its id is read, and an argument outside the record type is not modelled.
- SubscriptionActions.UpdateSubscription: takes a `Subscription` record rather than the `{ subscription }` argument object. The source writes the object it is given unvalidated, so extra keys, such as the `listId` and `startDate` an edit dialog passes, and values outside the record type are not modelled.
- SubscriptionActions.RemoveSubscription: takes a `Subscription` record rather than the `{ subscription }` argument object. Only its id is read, and an argument outside the record type is not modelled.
- UserActions.SetUserName: takes a string, as its signature says. A non-string argument, which the schema would also refuse, is not modelled.
