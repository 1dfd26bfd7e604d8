# Swagger form generator — a Dafny model

The application turns the Swagger 2.0 document of a backend service into a form.
`parseSwaggerSchema` derives the form's fields and the service's endpoints from the
document, and the `DynamicForm` component labels, validates, submits and resets the
form. This project models that core and proves what it promises.

- `Types` (utils/types.ts): the records. `FieldDefinition`, `ApiEndpoint` and `ServiceSchema` are the output. The Swagger document is the input: its `paths`, operations and parameters, and its `definitions` with their properties. A JavaScript object decoded from JSON is an ordered list of key/value pairs, in `Object.keys` order. An optional member is an `Option`.
- `JsStrings`: the JavaScript string built-ins the core calls, on ASCII letters. These are `toUpperCase`, `toLowerCase`, `endsWith`, `includes`, `replace` of one character, `split`, `join` and `trim`.
- `SchemaParser` (utils/schemaParser.ts):
  - `ParseSwaggerSchema` is the parser. Its three passes are the methods `ExtractEndpoints`, `ExtractParameterFields` and `ExtractDefinitionFields`. They share the `fields` list and the `fieldNames` set, as in the source.
  - Each pass is proved to compute a function. `DerivedSchema` is their composition: every candidate field is offered to `Claim`, parameters first and then the properties of the main definition. `Claim` keeps a candidate only when its name is still free.
  - `MapSwaggerTypeToFieldType`, `CreateFieldDefinition`, `FindMainDefinition` and `GetAllDefinitions` are modelled as the source writes them.
- `SchemaParserProperties`: what the parser promises, proved about `DerivedSchema`:
  - field names are unique;
  - the field kept under a name is the first candidate with that name;
  - parameter fields precede definition fields, and a parameter wins a name collision;
  - only header, query and formData parameters become fields;
  - the endpoints are the operations that have a summary, one each, in document order (two entries whose method names differ only in case both stay, both upper-cased);
  - the main definition follows the suffix priority `Input`, `Request`, `Dto`, `Create`, `Update`, and falls back to the first key.

  A small whole document is also worked through end to end.
- `DynamicForm` (components/DynamicForm.tsx):
  - `FormatFieldLabel` formats labels. Title case is proved equal to a character-level description: the first character and each one after a space upper-cased, every other lower-cased. The camelCase split is proved equal to another: a space is inserted before the character at index `i` exactly when `i > 0`, the character before it is in `a`-`z` and it is in `A`-`Z`. The examples from its documentation are proved.
  - `RequiredErrors` is the validation rule. It follows how `formData[name]` reads on a plain object: a name inherited from `Object.prototype` (`constructor`, `toString`, `valueOf`, …) that holds no value reads as a function, which is truthy, so it is not missing; and an error assigned under `__proto__` is not stored.
  - The class `FormState` holds the component's state: `formData`, `errors` and `submittedData`. Its methods `HandleChange`, `ValidateForm`, `HandleSubmit` and `HandleReset` update that state.

The source handles several other shapes of input; this is how the model represents them:
- A JavaScript truthiness test is written out where it is made.
  - An empty `summary` gives no endpoint.
  - An empty main-definition key selects nothing.
  - A present but empty `enum` makes a dropdown on the definition path only.
  - A form value `''`, `0` or `false` counts as missing, and so does an absent one, unless its name is inherited from `Object.prototype`.
- A path-item value that is not an operation is `Other`. It yields neither an endpoint nor parameters. Examples are a string, or the path-level `parameters` array.
- A list of key/value pairs can hold a key twice, although a decoded JSON object never does (`JSON.parse` keeps the last value). `Lookup` returns the first entry; the parsed documents the lemmas are about are not restricted to distinct keys.

## Model

| member | source | states |
|---|---|---|
| Types.Keys | utils/schemaParser.ts:54 | `Object.keys`: one key per entry, the i-th key is the i-th entry's key |
| JsStrings.ToUpper | utils/schemaParser.ts:19 | `toUpperCase`: same length, each character mapped by `UpperChar` (ASCII a-z to A-Z, all else unchanged); the string is unchanged iff it holds no `a`-`z` |
| JsStrings.ToLower | utils/schemaParser.ts:139-141 | `toLowerCase`: same length, each character mapped by `LowerChar` |
| JsStrings.ReplaceAll | components/DynamicForm.tsx:21 | `replace(/c/g, d)`: same length, every `c` becomes `d`, every other character stays |
| JsStrings.Trim | components/DynamicForm.tsx:44 | `trim`: the result neither starts nor ends with whitespace, and is empty iff the input is all whitespace |
| JsStrings.TrimIsCut | components/DynamicForm.tsx:44 | `trim` returns a slice `s[a..b]` of its input, and everything before `a` and from `b` on is whitespace |
| JsStrings.TrimChars | components/DynamicForm.tsx:44 | every character of a trimmed string is a character of the input |
| JsStrings.EndsWith | utils/schemaParser.ts:107 | `endsWith`: the suffix is no longer than the string and equals its last characters; used by `FirstEndingWith`, whose contract states the search |
| JsStrings.Includes | utils/schemaParser.ts:139-141 | `includes`: the substring is a prefix of some suffix of the string; used by `NamesLongText`, see `CommentIsTextarea` and `NameIsNoLongText` |
| JsStrings.Split | components/DynamicForm.tsx:29 | `split` on one separator character: always at least one piece; its meaning inside title case is stated by `TitleCaseByCharacter` |
| JsStrings.Join | components/DynamicForm.tsx:31 | `join`: the pieces with the separator between them; its meaning inside title case is stated by `TitleCaseByCharacter` |
| SchemaParser.MapSwaggerTypeToFieldType | utils/schemaParser.ts:82-96 | dropdown iff a non-empty enum; otherwise number iff `number`/`integer`, checkbox iff `boolean`, text for every other type; never textarea |
| SchemaParser.CreateFieldDefinition | utils/schemaParser.ts:118-155 | name kept; required iff listed; description defaults to `''`; options are the enum; dropdown iff an enum is present (even empty), then number, checkbox, and textarea iff a string property whose lower-cased name contains description/comment/note; no default value |
| SchemaParser.ParameterField | utils/schemaParser.ts:35-41 | a parameter's field: its name, the type table's kind, required iff `required` is true, description defaulting to `''`, options the enum; a dropdown has a non-empty option list |
| SchemaParser.FirstEndingWith | utils/schemaParser.ts:107 | `keys.find(k => k.endsWith(suffix))`: a result is a key with that suffix; none iff no key has it |
| SchemaParser.SelectByPatterns | utils/schemaParser.ts:104-112 | the result is one of the keys; none iff there are no keys |
| SchemaParser.MainDefinitionKey | utils/schemaParser.ts:102-113 | the main definition is one of the keys, and there is none iff there are no keys |
| SchemaParser.FindMainDefinition | utils/schemaParser.ts:102-113 | the loop over the five suffixes returns `MainDefinitionKey(keys)`, a key of the document |
| SchemaParser.Lookup | utils/schemaParser.ts:60 | `definitions[key]` is the definition of an entry under `key` |
| SchemaParser.GetAllDefinitions | utils/schemaParser.ts:161-164 | no names without definitions; otherwise exactly the definition names, in document order |
| SchemaParser.PropertyFields | utils/schemaParser.ts:65-71 | one candidate per property, in property order, each `CreateFieldDefinition` of that property |
| SchemaParser.DerivedSchema | utils/schemaParser.ts:7-77 | what the parser returns: the service name, `Claim([], ParameterFields ++ DefinitionFields)` and `SchemaEndpoints`; its promises are the `SchemaParserProperties` lemmas `FieldNamesUnique`, `FieldsAreFirstCandidates`, `ParameterFieldsComeFirst`, `ParameterWinsCollision`, `OnlyFormParametersYieldFields` and `EndpointsInOrder` |
| SchemaParser.Offer | utils/schemaParser.ts:34 | push a field unless its name is taken (the `!fieldNames.has(...)` test, then `push` and `add`); see `ClaimPrefix` |
| SchemaParser.Claim | utils/schemaParser.ts:66-69 | offer every candidate in order; stated by `ClaimPrefix`, `ClaimDistinct`, `ClaimNames`, `ClaimFirstWins` and `ClaimOrder` |
| SchemaParser.ParameterFields | utils/schemaParser.ts:28-49 | the parameter pass's candidates, every operation's parameters in path, method and array order; stated by `FormFieldsExactly` and `ParameterFieldsFromFormParameters` |
| SchemaParser.FormFields | utils/schemaParser.ts:34-41 | the `ParameterField` of each header, query or formData parameter, in order; stated by `FormFieldsExactly` |
| SchemaParser.DefinitionFields | utils/schemaParser.ts:52-74 | the definition pass's candidates; stated by `DefinitionFieldsOfMain` and `NoMainDefinitionNoFields` |
| SchemaParser.SchemaEndpoints | utils/schemaParser.ts:13-25 | the endpoints pass's result, none without `paths`; stated by `EndpointsInOrder` and `AbsentSectionsContributeNothing` |
| SchemaParser.PathsEndpoints | utils/schemaParser.ts:14-24 | the endpoints of every path item, path by path; stated by `EndpointsInOrder` and `EndpointsComplete` |
| SchemaParser.ItemEndpoints | utils/schemaParser.ts:15-23 | the endpoints of one path item, entry by entry; stated by `ItemEndpointsInOrder` and `ItemEndpointsExactly` |
| SchemaParser.HasSummary | utils/schemaParser.ts:16 | `typeof operation === 'object' && operation.summary`: an operation whose summary is present and non-empty |
| SchemaParser.NamesLongText | utils/schemaParser.ts:139-141 | the lower-cased name contains `description`, `comment` or `note`; stated by `CommentIsTextarea`, `NameIsNoLongText` and `TypeTablesDiffer` |
| SchemaParser.ParseSwaggerSchema | utils/schemaParser.ts:7-77 | the parser's result is `DerivedSchema`: the given service name, the claimed fields, the endpoints, no definitions |
| SchemaParser.ExtractEndpoints | utils/schemaParser.ts:13-25 | the endpoints pass yields `SchemaEndpoints`: per path, per method entry with a truthy summary, (basePath + path, upper-cased method, summary) |
| SchemaParser.ExtractItemEndpoints | utils/schemaParser.ts:15-23 | one path item's endpoints are appended to those found so far |
| SchemaParser.ExtractParameterFields | utils/schemaParser.ts:28-49 | with `fieldNames` the names of `fields`, the parameter pass leaves `Claim(fields, ParameterFields)` and keeps `fieldNames` equal to its names |
| SchemaParser.ExtractItemParameterFields | utils/schemaParser.ts:30-47 | the same for the operations of one path item, in method order then parameter order |
| SchemaParser.ExtractDefinitionFields | utils/schemaParser.ts:52-74 | the definition pass leaves `Claim(fields, DefinitionFields)`: the main definition's properties whose names are free, in property order |
| SchemaParserProperties.ClaimPrefix | utils/schemaParser.ts:66-69 | fields already kept stay, in front and unchanged; every field added is a candidate whose name was not taken before |
| SchemaParserProperties.ClaimDistinct | utils/schemaParser.ts:66-69 | the name set keeps the field names distinct |
| SchemaParserProperties.ClaimNames | utils/schemaParser.ts:66-69 | afterwards the taken names are exactly the earlier names plus every candidate's name |
| SchemaParserProperties.ClaimFirstWins | utils/schemaParser.ts:66-69 | each field added is the first candidate with its name |
| SchemaParserProperties.ClaimOrder | utils/schemaParser.ts:66-69 | the fields added come in the order their names first occur among the candidates |
| SchemaParserProperties.ClaimShadowed | utils/schemaParser.ts:34 | a later candidate named like an earlier one is dropped, the others are kept in order |
| SchemaParserProperties.FormFieldsExactly | utils/schemaParser.ts:34-41 | a candidate comes from the parameters iff it is the `ParameterField` of a header, query or formData parameter; the candidate names are exactly those parameters' names |
| SchemaParserProperties.FieldNamesUnique | utils/schemaParser.ts:9 | no two fields of a parsed schema share a name |
| SchemaParserProperties.FieldsAreFirstCandidates | utils/schemaParser.ts:28-74 | the field names are exactly the candidates' names; each field is the first candidate with its name; fields follow the order of first occurrence |
| SchemaParserProperties.ParameterFieldsComeFirst | utils/schemaParser.ts:28-74 | the parameter pass's fields form a prefix of the result; every later field is a main-definition property whose name no parameter took |
| SchemaParserProperties.ParameterWinsCollision | utils/schemaParser.ts:66 | the field under a name is the first parameter's field with that name if a parameter has it, else the first property's |
| SchemaParserProperties.OnlyFormParametersYieldFields | utils/schemaParser.ts:34 | a name is a field name iff a header/query/formData parameter or a main-definition property carries it; path and body parameters contribute nothing |
| SchemaParserProperties.ParameterFieldsFromFormParameters | utils/schemaParser.ts:35-41 | a parameter field is the `ParameterField` of a header/query/formData parameter of the document |
| SchemaParserProperties.AbsentSectionsContributeNothing | utils/schemaParser.ts:13 | without `paths` no endpoints and no parameter fields; without (or with empty) `definitions` no definition fields; the service name is passed through |
| SchemaParserProperties.EmptyDocument | utils/schemaParser.ts:76 | the document `{}` gives no fields and no endpoints |
| SchemaParserProperties.DefinitionFieldsOfMain | utils/schemaParser.ts:59-72 | definition candidates are exactly the main definition's properties, by name and required flag, none when it has no properties |
| SchemaParserProperties.NoMainDefinitionNoFields | utils/schemaParser.ts:52-59 | without definitions, without a main definition, or with a main definition under the empty (falsy) key, the definition pass contributes nothing |
| SchemaParserProperties.TypeTablesDiffer | utils/schemaParser.ts:130-146 | the definition path agrees with the parameter type table except that an empty enum gives a dropdown and a long-text string name gives a textarea |
| SchemaParserProperties.EnumBeatsNumeric | utils/schemaParser.ts:130-133 | an integer property with an enum is a dropdown with those options |
| SchemaParserProperties.CommentIsTextarea | utils/schemaParser.ts:137-142 | the string property `customerComment` is a textarea |
| SchemaParserProperties.NameIsText | utils/schemaParser.ts:143-145 | the string property `customerName` is plain text |
| SchemaParserProperties.StringPropertyField | utils/schemaParser.ts:137-145 | a string property whose name names no long text is a text field, required iff listed, with description `''` |
| SchemaParserProperties.MainDefinitionPriority | utils/schemaParser.ts:104-109 | the main definition is the first key ending with the first suffix, in priority order, that any key ends with |
| SchemaParserProperties.MainDefinitionFallback | utils/schemaParser.ts:111-112 | when no key ends with any suffix, the first key; with no keys, none |
| SchemaParserProperties.MainDefinitionExamples | utils/schemaParser.ts:102-113 | `FooInput` beats `FooDto`; `BazRequest` is found after `Bar`; `Alpha, Beta` gives `Alpha` |
| SchemaParserProperties.ItemEndpointsInOrder | utils/schemaParser.ts:15-23 | one path item's endpoints are, in order, those of its entries with a summary, listed by `SummaryIndicesFrom`, which holds exactly those entries' indices, strictly increasing: one endpoint per such entry, none for any other |
| SchemaParserProperties.EndpointsInOrder | utils/schemaParser.ts:13-25 | a document's endpoints are, in order, those of its (path, entry) pairs whose entry has a summary, listed by `SummaryPairsFrom`, which holds exactly those pairs in document order: path by path, then entry by entry, each (basePath + path, upper-cased method, summary) |
| SchemaParserProperties.ItemEndpointsExactly | utils/schemaParser.ts:15-23 | one path item gives an endpoint for every entry with a summary, and only those |
| SchemaParserProperties.EndpointsComplete | utils/schemaParser.ts:13-25 | every method entry with a truthy summary gives (basePath + path, upper-cased method, summary), and every endpoint is such an entry's |
| SchemaParserProperties.AccountParameterFields | utils/schemaParser.ts:28-49 | a required query parameter `branch` of type string becomes a required text field |
| SchemaParserProperties.AccountMainDefinition | utils/schemaParser.ts:102-109 | the only definition `AccountInput` is the main one |
| SchemaParserProperties.AccountPropertyFields | utils/schemaParser.ts:65-71 | the properties `currency` (listed as required) and `branch` become text fields, only `currency` required |
| SchemaParserProperties.AccountDefinitionFields | utils/schemaParser.ts:52-74 | the definition pass's candidates for that document are those two fields |
| SchemaParserProperties.AccountEndpoints | utils/schemaParser.ts:13-25 | `post` on `/acct` with summary `Create` gives the endpoint `/acct`, `POST`, `Create` |
| SchemaParserProperties.AccountDocumentSchema | utils/schemaParser.ts:7-77 | the whole document parses to the fields `branch` (from the parameter, required) then `currency`, and that one endpoint |
| DynamicForm.FormatFieldLabel | components/DynamicForm.tsx:19-45 | the label: `Untrimmed`, trimmed; stated by `LabelPipelineUniform`, `LabelShape`, `LabelTrimmed` and the five examples |
| DynamicForm.Untrimmed | components/DynamicForm.tsx:21-42 | separators become spaces; all-caps names are title-cased, others split at camelCase humps and then title-cased; stated by `LabelPipelineUniform` |
| DynamicForm.Separated | components/DynamicForm.tsx:21 | both `replace` calls; stated by `SeparatedHasNoSeparators` |
| DynamicForm.IsAllCaps | components/DynamicForm.tsx:24 | unchanged by `toUpperCase` and holding some `A`-`Z`; used by `LabelPipelineUniform`, which shows the test does not change the label |
| DynamicForm.CapitalizeWord | components/DynamicForm.tsx:30 | first character upper-cased, the rest lower-cased; stated through `TitleCaseByCharacter` |
| DynamicForm.CapitalizeWords | components/DynamicForm.tsx:30 | the `map` over the pieces: as many words as pieces; what each character becomes is stated by `TitleCaseByCharacter` |
| DynamicForm.TitleCase | components/DynamicForm.tsx:28-31 | split, capitalize each word, join; stated by `TitleCaseByCharacter` and `TitleCaseKeepsNoSeparators` |
| DynamicForm.SplitCamel | components/DynamicForm.tsx:35 | the camelCase replacement; stated by `SplitCamelByCharacter` and the `SplitCamel…` lemmas below |
| DynamicForm.SplitCamelByCharacter | components/DynamicForm.tsx:35 | the replacement equals `SpacedFrom(s, 0)`: every character of the input, in order, with one space inserted before index `i` exactly when `i > 0`, `s[i - 1]` is in `a`-`z` and `s[i]` is in `A`-`Z` |
| DynamicForm.TitleCaseByCharacter | components/DynamicForm.tsx:38-41 | split/capitalise/join keeps the length and upper-cases exactly the first character and each character after a space, lower-casing all others |
| DynamicForm.SplitCamelOnlyInsertsSpaces | components/DynamicForm.tsx:35 | the camelCase replacement only inserts spaces: the other characters stay, in order |
| DynamicForm.SplitCamelLength | components/DynamicForm.tsx:35 | it inserts exactly one character per lowercase-uppercase pair of the input |
| DynamicForm.SplitCamelLeavesNoPair | components/DynamicForm.tsx:35 | afterwards no lowercase letter is directly followed by an uppercase one |
| DynamicForm.SplitCamelChars | components/DynamicForm.tsx:35 | every character of the result is a character of the input or a space |
| DynamicForm.SplitCamelWithoutBoundary | components/DynamicForm.tsx:35 | without a lowercase-uppercase pair the replacement changes nothing |
| DynamicForm.SplitCamelAppend | components/DynamicForm.tsx:35 | the replacement works piece by piece where the pieces do not meet at such a pair |
| DynamicForm.LabelPipelineUniform | components/DynamicForm.tsx:19-45 | both branches of the all-caps test give the same label: the trimmed title case of the camelCase-split, separator-free name |
| DynamicForm.SeparatedHasNoSeparators | components/DynamicForm.tsx:21 | after the two replacements there is no `_` and no `-` |
| DynamicForm.TitleCaseKeepsNoSeparators | components/DynamicForm.tsx:38-41 | title-casing introduces no `_` or `-` |
| DynamicForm.LabelShape | components/DynamicForm.tsx:19-45 | no label contains `_` or `-` |
| DynamicForm.LabelTrimmed | components/DynamicForm.tsx:44 | no label starts or ends with whitespace |
| DynamicForm.CustomerIdExample | components/DynamicForm.tsx:13 | `customerId` is labelled `Customer Id` |
| DynamicForm.BranchExample | components/DynamicForm.tsx:14 | `BRANCH` is labelled `Branch` |
| DynamicForm.SourceExample | components/DynamicForm.tsx:15 | `SOURCE` is labelled `Source` |
| DynamicForm.AccountNumberExample | components/DynamicForm.tsx:16 | `account_number` is labelled `Account Number` |
| DynamicForm.AccountClassExample | components/DynamicForm.tsx:17 | `AccountClass` is labelled `Account Class` |
| DynamicForm.IsMissing | components/DynamicForm.tsx:68 | `!formData[name]`: a held value `''`, `0` or `false`, or no value under a name not inherited from `Object.prototype` |
| DynamicForm.RequiredMessage | components/DynamicForm.tsx:69 | the message `<label> is required` |
| DynamicForm.RequiredErrors | components/DynamicForm.tsx:64-71 | the errors the loop records, field by field, nothing stored under `__proto__`; stated by `RequiredErrorsExactly` and `ValidIffRequiredFilled` |
| DynamicForm.RequiredErrorsExactly | components/DynamicForm.tsx:67-71 | an error is recorded exactly under a name other than `__proto__` that is missing and is the name of some required field, and it reads `<label> is required` |
| DynamicForm.ValidIffRequiredFilled | components/DynamicForm.tsx:64-75 | there are no errors iff every required field other than `__proto__` reads as a truthy value |
| DynamicForm.FormState.constructor | components/DynamicForm.tsx:47-50 | a new form has no values, no errors and no submitted data |
| DynamicForm.FormState.HandleChange | components/DynamicForm.tsx:52-62 | the value under `name` is set, all other values are kept; a non-empty error under `name` is removed, all other errors are kept; submitted data unchanged |
| DynamicForm.FormState.ValidateForm | components/DynamicForm.tsx:64-75 | the errors shown are replaced by `RequiredErrors` of the schema's fields; the result is true iff there are none; values and submitted data unchanged |
| DynamicForm.FormState.HandleSubmit | components/DynamicForm.tsx:77-84 | validates; the values become the submitted data iff no error was found, otherwise the submitted data stays as it was |
| DynamicForm.FormState.HandleReset | components/DynamicForm.tsx:86-90 | values, submitted data and errors are all emptied |

## Left out

- Reading the document: JSON decoding, the backend proxy routes, the page that fetches the schema and `getServiceConfig` are not part of this model. The parser receives an already decoded document.
- `null` inside the document is not modelled: the model has no such value, and `Other` stands for non-object values. In the source a `null` operation (`typeof null === 'object'`) throws on `operation.summary` (utils/schemaParser.ts:16) and on `operation.parameters` (31); a `null` path item throws in `Object.entries` and `Object.values` (15, 30); a `null` parameter throws on `param.in` (34); a `null` main definition throws on `def.required` (61); and a `null` property throws on `property.description` (124).
- A parameter's `required` that is truthy but not `true` (such as `1` or `"yes"`), and a `summary` or `description` that is not a string, are not modelled. `required` is an `Option<bool>`, the other two are `Option<string>`.
- `NaN`, `null` and `undefined` form values: a form value is a string, a number or a boolean. An absent key stands for `undefined`.
- JavaScript orders integer-like object keys numerically before the others. The model takes the keys in the order given.
- Case mapping beyond ASCII: `toUpperCase`/`toLowerCase` map only `a`-`z` and `A`-`Z`. The camelCase pattern `[a-z][A-Z]` is ASCII in the source as well.
- `trim` is modelled with the ECMAScript WhiteSpace and LineTerminator characters, with no other Unicode space separators.
- React's batching and closures are not modelled. The component's `useState` updates become direct field assignments. `handleChange` reads `errors` as the current state rather than as the value captured at the last render.
- `renderField`, the JSX, `parseFloat` of number inputs, `preventDefault` and `console.log` are presentation or I/O. They are not modelled.
- `ServiceSchema.definitions` is never set by the parser, so the model always returns `None` for it. The `type` members of `SwaggerProperty` and `SwaggerDefinition` are optional here, because the parser tests them against string constants.
- The parser uses the type `ApiEndpoint` without importing it. That is a compile-time matter of the source, without effect on what it computes.
- The three passes of `parseSwaggerSchema` are blocks of one function in the source. Here they are separate methods that receive and return the `fields` list and the `fieldNames` set.
- `HandleChange` on a name inherited from `Object.prototype` that has no error: the source reads a truthy `errors[name]` and replaces the errors by an equal copy without that name; the model keeps the errors as they are, which holds the same entries.
