# Coil calculator form and results page

The repository is a Next.js front end for a heat-exchanger coil calculator.
Its input page, `app/page.tsx`, holds the form state:

- a parameter map `params`, which starts from 23 numeric defaults;
- a dimension type, either "OverallDimensions" or "CoilDimensions".

From this state it decides which fields to show. `getVisibleParams` turns the
calculation type into an ordered object of field descriptors:

- nine common fields always come first;
- "1" (Monophase) adds six fluid fields;
- "2" (Direct Expansion) and "3" (Condenser) add six refrigerant fields;
- any other value adds nothing.

The dimension group shows one of two width/height pairs. A field edit
overwrites the value under the input's name, storing a number for a number
input and text otherwise. Switching the dimension type stores the choice and sets all four
dimension values to 0. A submission posts the whole map with the option list
`[0]`.

The results page, `app/results/page.tsx`, reads the `result` query parameter
as JSON:

- every entry becomes one row, keyed by the raw key;
- each row is labelled by a string transform of the key: a space before
  every capital, a space before every "Dm" and "Kg", every space-separated
  word capitalised, then trim;
- objects are shown as their JSON text and other values as they are;
- a missing or empty parameter shows a notice;
- text that does not parse, or that parses to `null`, is shown raw.

The model has five modules:

- `Wrappers` holds `Option`.
- `JsText` holds the JavaScript built-ins the pages rely on:
  - `String` of an integer;
  - ASCII `toUpperCase`;
  - `trim` with the ECMAScript white-space set;
  - `split` and `join` on one character.
- `CoilForm` models `app/page.tsx`. The field catalogue and the resolver are
  functions. The form state is the class `CoilCalculator`, whose handlers
  are methods with `modifies` clauses.
- `ResultLabels` models the key-label transform. It proves the transform
  equal to a character-by-character description, `Trim(CapitaliseFrom(Spaced(key), true))`,
  and proves the label properties from that description.
- `ResultsView` models `formatResult` and the page's branches over an
  already-parsed JSON value.

## Model

| member | source | states |
|---|---|---|
| CoilForm.SpreadDisjoint | app/page.tsx:256-257 | spreading an object whose keys are distinct and new appends its entries after the existing ones, in order |
| CoilForm.SpreadLookup | app/page.tsx:305-306 | after a spread, a key of the spread object holds that object's value and every other key keeps the value it had |
| CoilForm.Put | app/page.tsx:256-257 | assigning a key that is present keeps the key order and assigning a new key appends it; afterwards the key holds the new value and every other key is unchanged |
| CoilForm.Spread | app/page.tsx:256-257 | a spread object has exactly the keys of both objects |
| CoilForm.Kind | app/page.tsx:187-349 | DimensionType is the one dimension field |
| CoilForm.Caption | app/page.tsx:187-349 | every declared field has a non-empty caption |
| CoilForm.Options | app/page.tsx:187-349 | a field has an option catalogue exactly when it is a select |
| CoilForm.Descriptor | app/page.tsx:187-349 | a key has a descriptor exactly when it names a field the form declares; the descriptor carries that key, is required, and has the field's kind, caption and options |
| CoilForm.DescriptorShape | app/page.tsx:187-349 | every declared descriptor carries its own key, is required, has options when it is a select, and is a dimension field exactly for DimensionType |
| CoilForm.Entries | app/page.tsx:187-252 | an object literal built from a key list has exactly those keys in that order, each with its declared descriptor |
| CoilForm.Resolve | app/page.tsx:183-353 | the spreads are concatenations: "1" gives the common fields followed by the fluid fields; "2" and "3" give the same list, the common fields followed by the refrigerant fields; any other text gives the common fields alone |
| CoilForm.ResolveCases | app/page.tsx:183-353 | the resolved keys are, in order, the nine common keys followed by FluidType … NoCircuits for "1", by RefrigerantType … GasCircuitsConfiguration for "2" and "3", and by nothing otherwise; every entry carries its declared descriptor |
| CoilForm.ResolveStartsWithCommon | app/page.tsx:187-252 | whatever the calculation type, the resolved list begins with CalculationType, CoilType, AirInTemperature, AirInHumidity, AirInFlowStandard, NoRows, NoTubes, FinPitch, DimensionType |
| CoilForm.ResolveWellFormed | app/page.tsx:187-349 | every resolved list has distinct keys, each entry's key equals its record key, every entry is required, every select has options, and exactly one entry (DimensionType) is a dimension field |
| CoilForm.OneDimensionEntry | app/page.tsx:246-251 | a consistent field list has exactly one dimension entry |
| CoilForm.ExtensionsShareOnlyNoCircuits | app/page.tsx:255-349 | a key belongs to both the fluid and the refrigerant extensions exactly when it is NoCircuits |
| CoilForm.UndeclaredNeverShown | app/page.tsx:183-353 | a key for which the form declares no descriptor is shown for no calculation type |
| CoilForm.GlycolTypeHidden | app/page.tsx:33 | GlycolType has a default value but no calculation type shows a field for it |
| CoilForm.ValueText | app/page.tsx:184 | `String` of a text value is the text itself |
| CoilForm.ModeText | app/page.tsx:184 | a missing calculation type reads as "undefined", a text value as itself, and a number reads as "1", "2" or "3" exactly when it is 1, 2 or 3 |
| CoilForm.NumericCalculationType | app/page.tsx:184 | a numeric calculation type picks its fields by value, as its decimal text does: 1 picks the fluid fields, 2 and 3 the refrigerant fields, and any other number none |
| CoilForm.SelectDimensionFields | app/page.tsx:123-126 | "CoilDimensions" selects CoilWidth/CoilHeight with the prefix "Coil" and any other value selects OverallDimensionWidth/OverallDimensionHeight with "Overall", both directions; the two keys are distinct dimension keys |
| CoilForm.DimensionCaptions | app/page.tsx:150-167 | the coil pair is captioned "Coil Width (mm)" and "Coil Height (mm)", the overall pair "Overall Width (mm)" and "Overall Height (mm)" |
| CoilForm.ResetDimensions | app/page.tsx:137-143 | a dimension switch sets CoilWidth, CoilHeight, OverallDimensionWidth and OverallDimensionHeight to 0, adds no other key, and leaves every other value unchanged |
| CoilForm.ResetIdempotent | app/page.tsx:137-143 | switching twice gives the same map as switching once |
| CoilForm.ResetForgetsDimensions | app/page.tsx:137-143 | maps that differ only in their dimension values are equal after a switch |
| CoilForm.ShownDimensionsZeroAfterSwitch | app/page.tsx:123-144 | right after a switch both inputs of the selected pair hold 0 |
| CoilForm.DimensionEditCleared | app/page.tsx:137-170 | an edit of a shown dimension input lands on that dimension parameter, and the next switch sets it back to 0 |
| CoilForm.DefaultParams | app/page.tsx:24-48 | the starting map defines exactly the 23 declared parameters, each as its default number |
| CoilForm.DefaultsShape | app/page.tsx:24-48 | in the starting map every value is a number and the calculation type reads as "1" |
| CoilForm.DefaultFieldsHaveValues | app/page.tsx:24-48 | in the starting state, every field shown apart from the dimension group has a value |
| CoilForm.RefrigerantFieldsWithoutDefaults | app/page.tsx:24-48 | of the refrigerant fields only NoCircuits starts with a value |
| CoilForm.EditedValue | app/page.tsx:81 | an edit stores a number exactly when the input type is "number", namely `Number(value)`, and otherwise stores the raw text |
| CoilForm.KeyOf | app/page.tsx:81 | the computed key `[name]` stands for the edited name, and a name the form knows always becomes its `Param` key, never an `Other` |
| CoilForm.KeyOfKeyName | app/page.tsx:81 | every key in that one representation is the key of its own name, so no property name has two keys |
| CoilForm.SelectedCalculationType | app/page.tsx:77-83 | choosing a code in the select named CalculationType makes that code the text the resolver reads |
| CoilForm.RequestBody | app/page.tsx:58-61 | the posted body holds the parameter map unchanged, including keys the current mode does not show, and the option list [0] |
| CoilForm.CoilCalculator.constructor | app/page.tsx:23-48 | the form starts with the overall dimensions and the default parameters |
| CoilForm.CoilCalculator.HandleInputChange | app/page.tsx:77-83 | an edit replaces only the value under the key of the edited name and keeps every other key, the declared parameters, the one key per name and the dimension type |
| CoilForm.CoilCalculator.OnDimensionTypeChange | app/page.tsx:135-144 | a switch stores the chosen dimension type, zeroes the four dimension values, and shows the pair of the new type, both inputs at 0 |
| CoilForm.CoilCalculator.VisibleParams | app/page.tsx:183-353 | whatever the state, the shown list is well formed, has one dimension entry and starts with the common fields |
| CoilForm.CoilCalculator.ShownDimensionFields | app/page.tsx:121-126 | the dimension group shows two distinct dimension parameters, the coil width exactly for "CoilDimensions" |
| CoilForm.CoilCalculator.SubmitBody | app/page.tsx:58-61 | a submission posts the current parameter map and [0] |
| CoilForm.CoilCalculator.SubmitsEachNameOnce | app/page.tsx:58-61 | a valid form submits every declared parameter, the calculation type among them, and no property name twice |
| JsText.NatToString | app/page.tsx:184 | the decimal text of a number is non-empty, all digits, and has no leading zero except for 0 itself |
| JsText.IntToString | app/page.tsx:184 | the decimal text of an integer is non-empty and starts with '-' exactly for a negative number |
| JsText.DecimalRoundTrip | app/page.tsx:184 | reading back the decimal text of a number gives that number |
| JsText.IntToStringInjective | app/page.tsx:184 | different integers have different decimal texts |
| JsText.Trim | app/results/page.tsx:23 | the trimmed string neither starts nor ends with white space |
| JsText.TrimIsSlice | app/results/page.tsx:23 | the trimmed string is a slice of the original with only white space on either side |
| JsText.TrimKeepsText | app/results/page.tsx:23 | trimming deletes white space only |
| JsText.Split | app/results/page.tsx:20 | a split gives one more piece than the string has separators |
| JsText.Join | app/results/page.tsx:22 | joining n pieces free of the separator puts exactly n - 1 separators in the result |
| JsText.JoinSplit | app/results/page.tsx:20-22 | joining the pieces of a split on the same character restores the string |
| JsText.SplitJoin | app/results/page.tsx:20-22 | splitting a join of pieces free of the separator gives the pieces back |
| JsText.SplitPiecesFree | app/results/page.tsx:20 | no piece of a split contains the separator |
| JsText.ToUpper | app/results/page.tsx:21 | upper-casing changes exactly the lower-case letters, each into an upper-case letter |
| JsText.ToUpperKeepsClass | app/results/page.tsx:21 | upper-casing never yields a lower-case letter, maps white space to white space and the space to itself (and nothing else to a space), and leaves upper-case letters alone |
| ResultLabels.SpaceBeforeCapitals | app/results/page.tsx:18 | step 1 never shortens the key and at most doubles it |
| ResultLabels.SpaceBeforeCapitalsKeepsText | app/results/page.tsx:18 | after step 1 every capital follows a space, and deleting white space gives the key's text with white space deleted |
| ResultLabels.SpaceBeforeUnits | app/results/page.tsx:19 | step 2 never shortens its input |
| ResultLabels.SpaceBeforeUnitsKeepsText | app/results/page.tsx:19 | step 2 only inserts white space: deleting white space gives its input's text with white space deleted |
| ResultLabels.CapitaliseWord | app/results/page.tsx:21 | a word differs from its capitalised form only in its first character, which afterwards is not a lower-case letter |
| ResultLabels.CapitaliseWords | app/results/page.tsx:21 | the map gives one capitalised word per piece, in order |
| ResultLabels.SpacedSteps | app/results/page.tsx:18-19 | the two `replace` steps together put two spaces before every "Dm"/"Kg", one before every other capital and none elsewhere |
| ResultLabels.CapitaliseWordsJoin | app/results/page.tsx:20-22 | split, capitalise and join upper-case exactly the characters that open a space-separated word |
| ResultLabels.CapitaliseFromAt | app/results/page.tsx:20-22 | a character is upper-cased exactly when it is first or follows a space |
| ResultLabels.FormatKey | app/results/page.tsx:17-23 | the label has no leading or trailing white space |
| ResultLabels.FormatKeyShape | app/results/page.tsx:17-23 | the label is the trimmed result of capitalising the word starts of the spaced key |
| ResultLabels.LabelCapitalsFollowSpaces | app/results/page.tsx:18-23 | every upper-case letter of the label after its first character follows a space |
| ResultLabels.LabelKeepsText | app/results/page.tsx:17-23 | with white space deleted, the label equals the key with white space deleted, up to upper-casing: nothing is dropped, added or reordered |
| ResultLabels.LabelWordsCapitalised | app/results/page.tsx:20-23 | when the key's only white space is the space, no space-separated word of the label starts with a lower-case letter |
| ResultLabels.LabelUnitsAfterTwoSpaces | app/results/page.tsx:18-23 | a "Dm" or "Kg" with non-white-space text before it appears in the label after two spaces, and the label text before it corresponds to the key text before it |
| ResultsView.Indexed | app/results/page.tsx:16 | the entries of an array-like value pair the decimal index with each item, in order |
| ResultsView.Characters | app/results/page.tsx:16 | a string's items are its characters, each as a one-character string, in order |
| ResultsView.ObjectEntries | app/results/page.tsx:16 | `Object.entries` throws exactly on null; an object gives its members, a number or boolean nothing |
| ResultsView.RenderValue | app/results/page.tsx:28 | a value is shown as JSON text exactly when `typeof` calls it an object, and the cell holds the value itself |
| ResultsView.RenderRows | app/results/page.tsx:16-30 | one row per entry, in entry order, each keyed by the raw key and labelled by its formatted key |
| ResultsView.FormatResult | app/results/page.tsx:10-37 | the result is null exactly for empty text, and text that does not parse, or parses to null, is shown raw |
| ResultsView.ResultsPage | app/results/page.tsx:46-50 | the notice is shown exactly when the parameter is absent or empty |
| ResultsView.ObjectRows | app/results/page.tsx:16-27 | a parsed object shows exactly its members, in order, keyed by the raw key with the formatted label and the member's value |
| ResultsView.ArrayRows | app/results/page.tsx:16-26 | a parsed array shows one row per item keyed "0", "1", … |
| ResultsView.StringRows | app/results/page.tsx:16-28 | a parsed string shows one row per character keyed "0", "1", …, each holding that character as a plain value |
| ResultsView.RowLabels | app/results/page.tsx:17-27 | every row label on a results card is trimmed, has its capitals after spaces and keeps its key's text |
| ResultsView.PageNeverShowsNull | app/results/page.tsx:46-47 | when the parameter is present and non-empty, the card shows what formatResult gives and that is never null |

## Left out

- The API routes (`app/api/startJob/route.ts`, `app/api/coils/route.ts`) only forward requests over the network. They are not part of this model.
- The layout (`app/layout.tsx`) is static markup and is not part of this model.
- The page markup: JSX, CSS classes, `renderField`'s choice of widget. Also the `value || ''` display of a missing or zero value, and the `*` shown for required fields. All of these are rendering only.
- The `fetch` in `handleSubmit`, `window.open`, `alert` and console logging are I/O. The model keeps only the request body.
- `JSON.stringify`, `encodeURIComponent`, `searchParams.get` and `JSON.parse` are library code:
  - the query parameter is an `Option<string>`;
  - the outcome of `JSON.parse` is an `Option<Json>` parameter, with None for a throw;
  - the JSON text of an object cell is left as the value itself (`JsonText(value)`).
- `Number(value)` is the parameter `toNumber: string -> int`. NaN, fractions and `Number("")` are not modelled, and numbers in the form are whole numbers.
- Numbers in the results JSON are `real`. The page shows them as they are, and their text form is not modelled.
- Option catalogues are unordered maps. The order JavaScript gives integer-like option codes such as '94', '113', '2' is not modelled.
- Object members are given in the enumeration order `Object.entries` would produce. The hoisting of integer-like keys to the front is not modelled.
- Strings are sequences of characters, not of UTF-16 code units. `toUpperCase` is modelled for ASCII letters only, because full Unicode case mapping can change a string's length.
- Parameter keys are an enumeration of the 31 names the form uses, plus `Other(text)` for any other string key, because the index signature admits any key. `KeyOf` maps a property name to its one key, so the form state never holds `Other("CoilWidth")` beside `Param(CoilWidth)`.
- The comparisons `calculationType === 1`, `=== 2` and `=== 3` compare a string with a number and are always false, so they are not modelled.
- NoCircuits is declared in both branches with identical descriptors, so the model has one descriptor per key.
- The caption of FluidFlow_dm3s is kept as the source text writes it, including the two characters U+00C2 U+00B3 where "³" was evidently meant.
- React renders a boolean value as nothing, while the model keeps the value in a `Plain` cell.
- ResultLabels.LabelWordsCapitalised: requires the key's only white space to be the space character, which is more than the property needs. It fails exactly when the key's first non-white-space character is a lower-case letter directly after a white-space character other than the space: `split(' ')` does not open a word there, and `trim` then makes that letter the label's first character (the key "\tab" is labelled "ab"). The property is "not a lower-case letter" rather than "upper-case", because a word may start with a digit or a symbol.
- ResultLabels.LabelUnitsAfterTwoSpaces: requires non-white-space text somewhere before the unit. When only white space precedes it, `trim` removes the inserted spaces together with the leading white space.
