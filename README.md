# Airplane-type and flight forms, modelled in Dafny

This project models the logic in the flight-management ("gestión de vuelos")
front end that goes beyond rendering.

**The seats-distribution editor of the airplane-type form.** An airplane type
stores its seat layout as dash-separated text, such as `"2-4-2"`. While the
form is open, the layout is a sparse map from row position to a seat count,
or to `null` when the input of a row has been cleared. The model has:

- the initial parse of the stored text;
- the three handlers:
  - Add: bounded at 8 rows, with the new position one above the greatest;
  - Change: a cleared input becomes `null`, anything else is read as an integer;
  - Remove: never below one row, and no renumbering;
- the submit guard that refuses `null` rows;
- the payload, whose layout is the values in ascending position order joined
  by `-`;
- the label text, which shows `null` as `X`;
- the disable rules of the add and remove buttons.

The editor exists twice in the repository, with the same handlers: in the
shared form component (create and edit) and in the older create page. Each
becomes a class (`AirplaneForm.AirplaneForm`,
`CreateAirplaneTypePage.CreateAirplaneTypePage`). Each class has a `Layout`
map field. Its handler methods replace that field with the pure functions of
`SeatsLayout`, and the lemmas are proved about those functions.

**The flight payload assembly.** The flight form and the flight create page
each hold ten state cells, updated by `onChange` setters. The save button is
gated by `allFieldsFilled`. Submit cuts each `datetime-local` text at `"T"`
into a date and a time, and fixes the status at `"1"`. Each page becomes a
class (`FlightForm.FlightForm`, `CreateFlightPage.CreateFlightPage`). The
class fields are the state cells, and the methods are the setters and the
submit. The shared pure logic is in `FlightFields`.

Supporting modules:

- `Strings`: JavaScript's `split` and `join` on one separator character.
- `Decimal`: integer literals and their decimal text, which `parseInt` reads
  and `join` writes.
- `Types`: the records, shaped after `src/services/gestion-vuelos-b/types.d.ts`.

Modelling choices:

- A layout is `map<nat, Option<int>>`, where `None` is `null`.
- JavaScript lists integer keys in ascending order. `SortedKeys` models that
  order, and every property about order (serialise, display, add appends,
  remove closes the gap) goes through it.
- `parseInt` is modelled on integer literals only: an optional `-` followed by
  digits. The model requires callers to pass only such text; see "Left out".
- Flight prices and percentages are `real`. They come from `Number(...)` on a
  number input and are copied unchanged, so no arithmetic is done on them.

## Model

| member | source | states |
|---|---|---|
| Strings.Split | src/components/gestion-vuelos-b/airplane-form.tsx:47 | JavaScript's `split`: at least one piece, none holding the separator; `JoinSplit` and `SplitJoin` pin it down |
| Strings.Join | src/components/gestion-vuelos-b/airplane-form.tsx:104 | `Array.join` on one separator; its properties are `JoinSplit`, `SplitJoin`, `JoinAppend` and `JoinContains` |
| Decimal.ParseInt | src/components/gestion-vuelos-b/airplane-form.tsx:48 | `parseInt` on an optional `-` and digits, `None` otherwise; `ParseIntOfIntToString` and `IntToStringOfParseInt` relate it to the number text |
| Decimal.IntToString | src/components/gestion-vuelos-b/airplane-form.tsx:104 | the decimal text `join` writes for a count; read back by `ParseIntOfIntToString` |
| SeatsLayout.Greatest | src/components/gestion-vuelos-b/airplane-form.tsx:66 | `Math.max` of the keys: a key, and no key is greater |
| SeatsLayout.Values | src/components/gestion-vuelos-b/airplane-form.tsx:90 | `Object.values`: one value per row, read in ascending key order (see `ValuesThrough`) |
| SeatsLayout.Serialize | src/components/gestion-vuelos-b/airplane-form.tsx:104 | the values joined by `-`, a `null` row as empty text; round trips in `SerializeParse` and `ParseSerialize` |
| SeatsLayout.Display | src/components/gestion-vuelos-b/airplane-form.tsx:181-183 | the values joined by `-`, a `null` row as `X`; related to `Serialize` by `DisplayIsSerializedIff` |
| SeatsLayout.HasUnfilled | src/components/gestion-vuelos-b/airplane-form.tsx:90 | `some(x => x === null)`; characterised by `UnfilledIff` |
| SeatsLayout.ParseLayout | src/components/gestion-vuelos-b/airplane-form.tsx:46-50 | the reduce over `split("-")`, `None` when a token is not an integer literal; characterised by `ParsedRows` |
| SeatsLayout.AddDisabled | src/components/gestion-vuelos-b/airplane-form.tsx:192-194 | the add button's rule, 8 rows or more; related to `AddRow` by `AddDisabledIff` |
| SeatsLayout.RemoveDisabled | src/components/gestion-vuelos-b/airplane-form.tsx:224 | the remove buttons' rule, one row left; related to `RemoveRow` by `RemoveDisabledIff` |
| FlightFields.BuildPayload | src/components/gestion-vuelos-b/flight-form.tsx:87-101 | the submitted flight: dates and times cut at `T`, status `"1"`, other fields copied; inverted by `FieldsOf` in `PayloadKeepsFields` and `PayloadFromFields` |
| FlightFields.AllFieldsFilled | src/components/gestion-vuelos-b/flight-form.tsx:104-115 | `every(field => field !== "")` over the ten fields in source order; characterised by `AllFieldsFilledIff` |
| FlightFields.SaveDisabled | src/components/gestion-vuelos-b/flight-form.tsx:272 | loading or not all fields filled; characterised by `SaveDisabledIff` |
| FlightFields.Defaults | src/components/gestion-vuelos-b/flight-form.tsx:45-61 | texts empty, numbers 0, flight type `"1"`; see `DefaultsDisableSave` |
| FlightFields.FromFlight | src/components/gestion-vuelos-b/flight-form.tsx:45-83 | the fields of an existing flight, with the converted date-time texts as parameters |
| Strings.JoinSplit | src/components/gestion-vuelos-b/airplane-form.tsx:47 | joining the pieces of `split` with the same separator gives back the text |
| Strings.SplitJoin | src/components/gestion-vuelos-b/airplane-form.tsx:104 | splitting a join of separator-free pieces gives back the pieces |
| Strings.SplitCount | src/components/gestion-vuelos-b/airplane-form.tsx:47 | `split` gives one piece more than the separator occurs |
| Strings.SplitWithoutSeparator | src/components/gestion-vuelos-b/flight-form.tsx:89 | text without the separator splits into itself alone |
| Strings.SplitAtFirstSeparator | src/components/gestion-vuelos-b/flight-form.tsx:89-92 | `split` cuts at the first separator and continues on the rest |
| Strings.JoinAppend | src/components/gestion-vuelos-b/airplane-form.tsx:104 | joining one more piece appends the separator and that piece |
| Strings.JoinContains | src/components/gestion-vuelos-b/airplane-form.tsx:181-183 | a character other than the separator is in a join iff it is in one of the pieces |
| Decimal.NatToString | src/components/gestion-vuelos-b/airplane-form.tsx:104 | the text of a number is canonical decimal, starting with 0 only for zero |
| Decimal.ParseIntOfIntToString | src/components/gestion-vuelos-b/airplane-form.tsx:48 | `parseInt` of the text of an integer gives that integer |
| Decimal.IntToStringOfParseInt | src/components/gestion-vuelos-b/airplane-form.tsx:48 | a canonical digit text parses to its value and is the text of that value |
| Decimal.NatToStringOfDigitsValue | src/components/gestion-vuelos-b/airplane-form.tsx:48 | a canonical digit text is the text of the value it denotes |
| SeatsLayout.DefaultLayout | src/pages/gestion-vuelos-b/airplane-types/create/index.tsx:15-18 | the initial layout has exactly one row, at position 0 |
| SeatsLayout.SortedKeys | src/components/gestion-vuelos-b/airplane-form.tsx:61 | lists every key once, in strictly ascending order |
| SeatsLayout.SortedKeysUnique | src/components/gestion-vuelos-b/airplane-form.tsx:104 | the ascending listing of a key set is the only one |
| SeatsLayout.ValuesThrough | src/components/gestion-vuelos-b/airplane-form.tsx:90 | `Object.values` reads the rows through the ascending key order |
| SeatsLayout.UnfilledIff | src/components/gestion-vuelos-b/airplane-form.tsx:90-93 | the submit guard fires iff some position holds `null` |
| SeatsLayout.DisplayIsSerializedIff | src/components/gestion-vuelos-b/airplane-form.tsx:181-183 | the label text equals the submitted text iff no row is unfilled |
| SeatsLayout.DisplayMarksUnfilled | src/components/gestion-vuelos-b/airplane-form.tsx:181-183 | with non-negative counts the label has one dash-separated token per row, and a token is `X` iff its row is `null` |
| SeatsLayout.Rows | src/components/gestion-vuelos-b/airplane-form.tsx:47-50 | the accumulator of the reduce: positions exactly 0..n-1, position i holding cell i |
| SeatsLayout.RowsSize | src/components/gestion-vuelos-b/airplane-form.tsx:47-50 | n cells give n rows |
| SeatsLayout.RowsInOrder | src/components/gestion-vuelos-b/airplane-form.tsx:47-50 | rows built from cells enumerate in position order and give the cells back as values |
| SeatsLayout.ParsedRows | src/components/gestion-vuelos-b/airplane-form.tsx:46-50 | a parsed layout has positions exactly 0..n-1, n = number of dashes + 1 ≥ 1, and row i holds the parse of token i |
| SeatsLayout.SerializeParse | src/components/gestion-vuelos-b/airplane-form.tsx:46-50 | parsing a distribution of canonical decimal tokens and serialising it gives the text back |
| SeatsLayout.ParseSerialize | src/components/gestion-vuelos-b/airplane-form.tsx:104 | serialising a filled, non-negative layout and parsing it gives the same rows in the same order, renumbered from 0 |
| SeatsLayout.AddRow | src/components/gestion-vuelos-b/airplane-form.tsx:60-68 | at 8 rows or more nothing changes; otherwise exactly the key greatest+1 is added with 1 seat, every other entry is kept, and the count grows by one |
| SeatsLayout.RemoveRow | src/components/gestion-vuelos-b/airplane-form.tsx:77-85 | with one row nothing changes; otherwise only the given key goes, no entry is renumbered or altered, and the map never becomes empty |
| SeatsLayout.Cell | src/components/gestion-vuelos-b/airplane-form.tsx:73 | the input gives `null` iff it is empty |
| SeatsLayout.ChangeRow | src/components/gestion-vuelos-b/airplane-form.tsx:70-75 | the given position (added if absent) holds `null` for empty input, else the parsed integer; every other entry is kept |
| SeatsLayout.AddDisabledIff | src/components/gestion-vuelos-b/airplane-form.tsx:192-194 | the add button is disabled iff adding would change nothing |
| SeatsLayout.RemoveDisabledIff | src/components/gestion-vuelos-b/airplane-form.tsx:224 | the remove buttons are disabled iff one row is left, when removing changes nothing for any position; otherwise removing any present row changes the map |
| SeatsLayout.SortedKeysAppend | src/components/gestion-vuelos-b/airplane-form.tsx:66 | a key above all others joins the end of the ascending order |
| SeatsLayout.SortedKeysRemove | src/components/gestion-vuelos-b/airplane-form.tsx:83 | deleting the key at index p of the order closes the gap |
| SeatsLayout.AddAppendsRow | src/components/gestion-vuelos-b/airplane-form.tsx:64-67 | below the limit, add appends a value 1 at the end of the rows, and `"-1"` to the submitted text |
| SeatsLayout.RemoveDropsRow | src/components/gestion-vuelos-b/airplane-form.tsx:82-84 | removing the p-th row drops exactly the p-th value and keeps the others in order |
| SeatsLayout.ChangeReplacesRow | src/components/gestion-vuelos-b/airplane-form.tsx:70-75 | changing a present row replaces its value in place in the order |
| SeatsLayout.Step | src/components/gestion-vuelos-b/airplane-form.tsx:60-85 | one user edit applied to a non-empty layout leaves it non-empty |
| SeatsLayout.Run | src/components/gestion-vuelos-b/airplane-form.tsx:60-85 | a sequence of offered edits (Change only on a present row, with empty or integer-literal input) keeps the layout non-empty |
| SeatsLayout.RowCountStaysInBounds | src/components/gestion-vuelos-b/airplane-form.tsx:60-85 | from 1 to 8 rows every sequence of the inputs the form offers stays within 1 to 8 rows |
| SeatsLayout.DefaultLayoutStaysInBounds | src/pages/gestion-vuelos-b/airplane-types/create/index.tsx:15-18 | from the initial `{0: 1}` every sequence of offered edits (Change only on a present row, with empty or integer-literal input) stays within 1 to 8 rows; it submits as `"1"` |
| SeatsLayout.AddRemoveOffered | src/components/gestion-vuelos-b/airplane-form.tsx:60-85 | Add and Remove are offered on every non-empty layout, so with `DefaultLayoutStaysInBounds` any Add/Remove sequence from `{0: 1}` stays within 1 to 8 rows |
| AirplaneForm.ParseDistribution | src/components/gestion-vuelos-b/airplane-form.tsx:47-50 | the reduce loop writing token i at position i computes the parsed layout |
| AirplaneForm.AirplaneForm.constructor | src/components/gestion-vuelos-b/airplane-form.tsx:43-52 | editing starts from the parsed stored distribution, creating from `{0: 1}` |
| AirplaneForm.AirplaneForm.HandleSeatsDistributionAdd | src/components/gestion-vuelos-b/airplane-form.tsx:60-68 | the new state is `AddRow` of the old one |
| AirplaneForm.AirplaneForm.HandleSeatsDistributionChange | src/components/gestion-vuelos-b/airplane-form.tsx:70-75 | the new state is `ChangeRow` of the old one |
| AirplaneForm.AirplaneForm.HandleSeatsDistributionRemove | src/components/gestion-vuelos-b/airplane-form.tsx:77-85 | the new state is `RemoveRow` of the old one |
| AirplaneForm.AirplaneForm.HandleSubmit | src/components/gestion-vuelos-b/airplane-form.tsx:87-106 | no payload iff a row is unfilled; otherwise id is the edited airplane's id or the name, the layout text is the rows joined in position order, and when no count is negative it parses back to the rows renumbered from 0 |
| AirplaneForm.AirplaneForm.DisplayText | src/components/gestion-vuelos-b/airplane-form.tsx:181-183 | the label equals the submitted text iff no row is unfilled |
| CreateAirplaneTypePage.CreateAirplaneTypePage.constructor | src/pages/gestion-vuelos-b/airplane-types/create/index.tsx:15-18 | the page opens with `{0: 1}` |
| CreateAirplaneTypePage.CreateAirplaneTypePage.HandleSubmit | src/pages/gestion-vuelos-b/airplane-types/create/index.tsx:33-52 | no payload iff a row is unfilled; otherwise id is the name, the layout text is the rows joined in position order, and when no count is negative it parses back to the rows renumbered from 0 |
| CreateAirplaneTypePage.CreateAirplaneTypePage.HandleSeatsDistributionAdd | src/pages/gestion-vuelos-b/airplane-types/create/index.tsx:54-62 | the new state is `AddRow` of the old one |
| CreateAirplaneTypePage.CreateAirplaneTypePage.HandleSeatsDistributionChange | src/pages/gestion-vuelos-b/airplane-types/create/index.tsx:64-69 | the new state is `ChangeRow` of the old one |
| CreateAirplaneTypePage.CreateAirplaneTypePage.HandleSeatsDistributionRemove | src/pages/gestion-vuelos-b/airplane-types/create/index.tsx:71-79 | the new state is `RemoveRow` of the old one |
| CreateAirplaneTypePage.CreateAirplaneTypePage.DisplayText | src/pages/gestion-vuelos-b/airplane-types/create/index.tsx:132 | the label equals the submitted text iff no row is unfilled |
| FlightFields.DatePart | src/components/gestion-vuelos-b/flight-form.tsx:89 | the date is the prefix of the text before its first `T`: it holds no `T`, and is followed by `T` unless it is all of the text |
| FlightFields.TimePart | src/components/gestion-vuelos-b/flight-form.tsx:90 | a time exists iff the text holds a `T`, and it holds no `T` |
| FlightFields.AllFieldsFilledIff | src/components/gestion-vuelos-b/flight-form.tsx:104-115 | `allFieldsFilled` iff all seven text fields are non-empty |
| FlightFields.NumbersNeverBlock | src/components/gestion-vuelos-b/flight-form.tsx:104-115 | price, surcharge and tax never change `allFieldsFilled` |
| FlightFields.SaveDisabledIff | src/components/gestion-vuelos-b/flight-form.tsx:272 | save is disabled iff loading or some text field is empty |
| FlightFields.DefaultsDisableSave | src/components/gestion-vuelos-b/flight-form.tsx:45-61 | without a flight: type `"1"`, numbers 0, and save disabled |
| FlightFields.SubmitDoesNotRecheck | src/components/gestion-vuelos-b/flight-form.tsx:85-102 | submit on the default state builds a payload with empty fields and no times |
| FlightFields.RejoinIff | src/components/gestion-vuelos-b/flight-form.tsx:89-92 | date + `T` + time is a prefix of the text, and all of it iff the text holds at most one `T` |
| FlightFields.SplitDateTime | src/components/gestion-vuelos-b/flight-form.tsx:89-92 | with exactly one `T`, date + `T` + time is the text |
| FlightFields.PayloadKeepsFields | src/components/gestion-vuelos-b/flight-form.tsx:87-101 | status is `"1"` and, with at most one `T` per date-time, every form field can be read back from the payload |
| FlightFields.PayloadFromFields | src/components/gestion-vuelos-b/flight-form.tsx:87-101 | every status-`"1"` payload whose dates and times hold no `T` is the one built from the fields read back from it |
| FlightFields.RejoinSplits | src/components/gestion-vuelos-b/flight-form.tsx:89-92 | cutting a rejoined date and time at `T` gives them back |
| FlightForm.FlightForm.constructor | src/components/gestion-vuelos-b/flight-form.tsx:45-83 | a flight's fields, or the defaults (texts empty, numbers 0, type `"1"`) |
| FlightForm.FlightForm.SetFlightNumber | src/components/gestion-vuelos-b/flight-form.tsx:131 | only the flight number changes |
| FlightForm.FlightForm.SetAirplaneTypeId | src/components/gestion-vuelos-b/flight-form.tsx:137 | only the airplane type changes |
| FlightForm.FlightForm.SetFlightTypeId | src/components/gestion-vuelos-b/flight-form.tsx:162 | only the flight type changes |
| FlightForm.FlightForm.SetPrice | src/components/gestion-vuelos-b/flight-form.tsx:186 | only the price changes |
| FlightForm.FlightForm.SetSurchargePercentage | src/components/gestion-vuelos-b/flight-form.tsx:197 | only the surcharge changes |
| FlightForm.FlightForm.SetTaxPercentage | src/components/gestion-vuelos-b/flight-form.tsx:208 | only the tax changes |
| FlightForm.FlightForm.SetOriginIata | src/components/gestion-vuelos-b/flight-form.tsx:222 | only the origin changes |
| FlightForm.FlightForm.SetDepartureDate | src/components/gestion-vuelos-b/flight-form.tsx:229 | only the departure changes |
| FlightForm.FlightForm.SetDestinationIata | src/components/gestion-vuelos-b/flight-form.tsx:242 | only the destination changes |
| FlightForm.FlightForm.SetArrivalDate | src/components/gestion-vuelos-b/flight-form.tsx:249 | only the arrival changes |
| FlightForm.FlightForm.HandleSubmit | src/components/gestion-vuelos-b/flight-form.tsx:85-102 | status `"1"`, the payload of the current fields, which they can be read back from when each date-time holds at most one `T` |
| FlightForm.FlightForm.SaveButtonDisabled | src/components/gestion-vuelos-b/flight-form.tsx:272 | disabled iff loading or some text field is empty |
| CreateFlightPage.CreateFlightPage.constructor | src/pages/gestion-vuelos-b/flights/create/index.tsx:46-55 | texts empty, numbers 0, type `"1"` |
| CreateFlightPage.CreateFlightPage.SetFlightNumber | src/pages/gestion-vuelos-b/flights/create/index.tsx:103 | only the flight number changes |
| CreateFlightPage.CreateFlightPage.SetAirplaneTypeId | src/pages/gestion-vuelos-b/flights/create/index.tsx:109 | only the airplane type changes |
| CreateFlightPage.CreateFlightPage.SetFlightTypeId | src/pages/gestion-vuelos-b/flights/create/index.tsx:130 | only the flight type changes |
| CreateFlightPage.CreateFlightPage.SetPrice | src/pages/gestion-vuelos-b/flights/create/index.tsx:149 | only the price changes |
| CreateFlightPage.CreateFlightPage.SetSurchargePercentage | src/pages/gestion-vuelos-b/flights/create/index.tsx:159 | only the surcharge changes |
| CreateFlightPage.CreateFlightPage.SetTaxPercentage | src/pages/gestion-vuelos-b/flights/create/index.tsx:169 | only the tax changes |
| CreateFlightPage.CreateFlightPage.SetOriginIata | src/pages/gestion-vuelos-b/flights/create/index.tsx:182 | only the origin changes |
| CreateFlightPage.CreateFlightPage.SetDepartureDate | src/pages/gestion-vuelos-b/flights/create/index.tsx:188 | only the departure changes |
| CreateFlightPage.CreateFlightPage.SetDestinationIata | src/pages/gestion-vuelos-b/flights/create/index.tsx:200 | only the destination changes |
| CreateFlightPage.CreateFlightPage.SetArrivalDate | src/pages/gestion-vuelos-b/flights/create/index.tsx:206 | only the arrival changes |
| CreateFlightPage.CreateFlightPage.HandleSubmit | src/pages/gestion-vuelos-b/flights/create/index.tsx:57-74 | status `"1"`, the payload of the current fields, which they can be read back from when each date-time holds at most one `T` |
| CreateFlightPage.CreateFlightPage.SaveButtonDisabled | src/pages/gestion-vuelos-b/flights/create/index.tsx:219 | disabled iff loading or some text field is empty |

## Left out

- `parseInt` beyond integer literals: `NaN`, reading only a leading prefix (`"3.5"`, `"1e2"`, `" 7"`), a leading `+` (`"+5"` gives 5) and `0x` hexadecimal (`"0x1A"` gives 26) are not modelled; only a stored distribution can hold the last two, since a number input cannot send them. A token that is not an integer literal makes `ParseLayout` give `None`.
- AirplaneForm.AirplaneForm.constructor: requires the stored distribution to parse, since a `NaN` row is not modelled.
- AirplaneForm.AirplaneForm.HandleSeatsDistributionChange: requires the input to be empty or an integer literal, for the same reason.
- CreateAirplaneTypePage.CreateAirplaneTypePage.HandleSeatsDistributionChange: requires the input to be empty or an integer literal, for the same reason.
- SeatsLayout.ChangeRow: requires the input to be empty or an integer literal, for the same reason.
- SeatsLayout.Cell: requires the input to be empty or an integer literal, for the same reason; a number input can also send texts such as `"2.5"`, `"1e1"` or `".5"`, which `parseInt` reads as 2, 1 and `NaN`.
- AirplaneForm.AirplaneForm.HandleSubmit: takes the `name`, `family` and `maxSeats` form values as parameters and, when no row is unfilled, requires the last two to be integer literals. Reading `FormData` and `NaN` are not modelled.
- CreateAirplaneTypePage.CreateAirplaneTypePage.HandleSubmit: takes the form values as parameters, with the same requirement on the path past the null guard.
- SeatsLayout.AddRow: requires a non-empty layout. On `{}` the source computes `Math.max()` = -Infinity, but every handler keeps the layout non-empty.
- SeatsLayout.RowCountStaysInBounds: speaks of the edits the form offers. The change input exists only for present rows, so a change never adds a row there. The handler itself inserts an absent index, and `ChangeRow` models that.
- The JavaScript number text of very large or non-integer counts (exponent notation above 1e21) is not modelled; counts are unbounded integers.
- Flight prices and percentages are modelled as reals, not floating point, and `Number("")` = 0 happens before the setter.
- The edit-time conversion of a flight's stored date and time is not modelled: the form reads the stored date and time as local time (`new Date(`${date} ${time}`)`) and holds the UTC date-time text of that instant, cut to `datetime-local` form (`toISOString().slice(0, 16)`), so the result depends on the time zone and the Date library. The constructor takes these UTC date-time texts as parameters.
- The `onValueChange` cast of the flight type toggle is unchecked, so the setter accepts any text; deselecting gives `""`.
- `alert`, toasts, router navigation, react-query queries and mutations, the GraphQL services, the table pages and all rendering are not modelled. The mutation is the payload returned by `HandleSubmit`; its `isLoading` is the `loading` parameter of the save-button rule.
