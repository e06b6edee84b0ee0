# os-packager utilities, modelled in Dafny

This project models the decision logic of the os-packager helper layer, found in
`app/services/utils.js`. The helper layer builds fiscal data packages from CSV files.
The model covers:

- **type compatibility** (`getAllowedTypesForValues`): which registry types a sampled
  value or column can be cast to. A column's result is the intersection of its
  elements' results, in the order Underscore's `_.intersection` gives it.
- **the concept catalog and concept compatibility** (`availableConcepts`,
  `getAllowedConcepts`): which semantic roles, such as Amount, Date / Time or
  Classification, a column with given type ids may take.
- **the default currency** (`defaultCurrency`).
- **proxy URL decoration** (`decorateProxyUrl` / `undecorateProxyUrl`) and the names
  derived from paths and URLs (`createNameFromPath`, `createNameFromUrl`).
- **unique resource naming** (`createUniqueResourceName`): an imperative loop with its
  invariant and its termination argument. At most |resources| + 1 names are tried,
  because the names tried are pairwise distinct.
- **the pure steps around the asynchronous calls**: splitting parsed CSV records into
  headers and rows, and reshaping a grouped validation report.

Modules follow the source's components: `Collections` holds the Underscore helpers
(`_.filter`, `_.find`, `_.intersection`). The others are `Types`, `Concepts`,
`Currency`, `Proxy`, `Naming` and `Validation`.

The parts that are library code become parameters:

- json-table-schema's casts become a predicate `accepts(typeId, value)`.
- Node's `url.parse` and `encodeURIComponent` become a `UrlLib`. The round-trip lemmas
  assume one fact about these two calls together, `Proxy.ProxyRoundTrips`: parsing
  `/proxy?url=` followed by the encoding of a non-empty address gives back the path
  `/proxy` and that address as the `url` parameter. This holds for Node.
- `path.basename`, `path.extname` and the Inflector slug become a `PathLib`.
- The type registry is the ordered list of type ids.

Choices, and places where the code behaves unexpectedly:

- **Empty column.** What an empty column should allow is not obvious. The code calls
  `_.intersection()` with no lists. That call reads the length of `undefined`, runs
  its loop zero times and returns `[]`. So an empty column allows no type, and its
  concepts are none, not even "no selection" (`Types.EmptyColumnHasNoTypes`,
  `Concepts.NoTypesNoConcepts`).
- **Proxy round trip.** One might expect `undecorate(decorate(x)) == undecorate(x)`
  for every `x`. The code tests `result.query.url` for truthiness, so this only holds
  when the undecorated address is non-empty. `decorate("")` is `/proxy?url=`, and
  undecorating that returns `/proxy?url=` itself. Decorating it again wraps it a second
  time (`Proxy.EmptyAddressDoesNotRoundTrip`). The model follows the code.
- **Allowed types of a concept.** One might expect every concept to allow only
  registry type ids. Date / Time also lists `'numeric'`. No
  json-table-schema type has that id (the number type is `'number'`). So that entry
  only matches a caller who passes `'numeric'` explicitly
  (`Concepts.NumericMatchesOnlyDateTime`).

## Model

| member | source | states |
|---|---|---|
| Types.AllowedTypes | app/services/utils.js:266-275 | a type id is in the result exactly when it is a registry type that fits the sample: a scalar fits when its cast accepts it, a column when it is non-empty and every element fits; with distinct registry ids the result has no duplicates |
| Types.AllowedTypesInRegistryOrder | app/services/utils.js:266-275 | with distinct registry ids, the result for any sample (scalar or nested column) is the registry filtered by "fits the whole sample", in registry order |
| Types.ColumnIsIntersection | app/services/utils.js:267-269 | for a non-empty column, a type survives exactly when it is allowed for every element |
| Types.EmptyColumnHasNoTypes | app/services/utils.js:267-269 | an empty column allows no type (`_.intersection()` with no lists returns `[]`) |
| Types.MixedColumnKeepsString | app/services/utils.js:266-275 | over the registry ["integer", "string"], a column of three values that all cast to a string, where only the first two cast to an integer (such as "1", "2", "x"), keeps only "string" |
| Collections.IntersectionOfDistinct | app/services/utils.js:269 | on a first list without duplicates, `_.intersection` is the filter "occurs in all the other lists", keeping the first list's order |
| Collections.IntersectionHead | app/services/utils.js:244-247 | the first element of `_.intersection` is the earliest element of the first list that occurs in all the others |
| Concepts.CatalogShape | app/services/utils.js:135-239 | the catalog `Concepts.Catalog` (`availableConcepts`) has nine entries with distinct ids; exactly Amount and Date / Time are required; only Amount is a measure; only "no selection" has no group; "no selection" and the two labels allow all registry types; the other entries allow a fixed non-empty list |
| Concepts.GetAllowedConcepts | app/services/utils.js:277-285 | the result is the catalog, in catalog order, filtered by "allows at least one of the given ids"; one type counts as the one-element list of its id |
| Concepts.SingleTypeOffers | app/services/utils.js:277-285 | for a single type id, entry by entry: each catalog entry is offered exactly when its allowed list contains the id |
| Concepts.AmountOfferedIff | app/services/utils.js:150-160 | Amount is offered exactly when the ids include "number" or "integer" |
| Concepts.GenericConceptsOffered | app/services/utils.js:135-239 | "no selection" and both label concepts are offered exactly when one of the ids is a registry type |
| Concepts.NoTypesNoConcepts | app/services/utils.js:278-284 | an empty list of types is offered no concept |
| Concepts.IntegerOffersEveryConcept | app/services/utils.js:135-239 | when "integer" is a registry type, an integer is offered the whole catalog in order |
| Concepts.DateOffers | app/services/utils.js:161-171 | when "date" is a registry type, a date is offered exactly "no selection", Date / Time and the two labels, in that order |
| Concepts.NumericMatchesOnlyDateTime | app/services/utils.js:164 | when the registry has no "numeric" type, an explicit "numeric" matches Date / Time alone |
| Concepts.ColumnConcepts | app/services/utils.js:266-285 | for a sampled column, "no selection" is offered for the column's allowed types exactly when some registry type fits the whole column |
| Currency.DefaultCurrency | app/services/utils.js:243-251 | for a non-empty list, the default's code is USD if offered, else EUR if offered, else the first listed code; the default is a listed entry and the first one with its code |
| Currency.PreferenceOrder | app/services/utils.js:244-247 | USD beats EUR; with neither offered, the default is the first listed currency |
| Proxy.Undecorate | app/services/utils.js:50-58 | the input comes back unchanged unless its path is `/proxy` with a non-empty `url` parameter; in that case the parameter's value comes back |
| Proxy.Decorate | app/services/utils.js:60-63 | the output starts with `/proxy?url=` and continues with the encoding of the undecorated input |
| Proxy.UndecorateDecorate | app/services/utils.js:50-63 | undecorating a decorated URL gives the address it wraps, when that address is non-empty |
| Proxy.DecorateIdempotent | app/services/utils.js:60-63 | a decorated URL is not wrapped a second time: decorating twice equals decorating once |
| Proxy.EmptyAddressDoesNotRoundTrip | app/services/utils.js:53-62 | the empty address decorates to `/proxy?url=`, which undecorates to itself and not to the empty string, and which a second decoration wraps again |
| Naming.CreateUniqueResourceName | app/services/utils.js:287-302 | the result is no resource's name; it is `resourceName` when that is free; otherwise it is the first free name in the order `name`, `name-1`, `name-2`, …, with every earlier one taken and at most |resources| + 1 names tried |
| Naming.FirstFreeIsUnique | app/services/utils.js:290-300 | the "first free name" description fits exactly one name, so it fixes the result |
| Naming.Pigeonhole | app/services/utils.js:290-300 | if the first m + 1 names tried are all taken, then m < |resources|, which bounds the loop |
| Naming.CandidateInjective | app/services/utils.js:295 | the names `name`, `name-1`, `name-2`, … are pairwise distinct |
| Naming.DecimalRoundTrip | app/services/utils.js:295 | the decimal string of the counter reads back as the counter |
| Naming.NameFromPath | app/services/utils.js:253-256 | the name is the slug of the file name without directory and extension, or the slug of the whole file name when that stem is empty; for a non-empty file name the slug is never applied to the empty string |
| Naming.NameFromUrl | app/services/utils.js:258-264 | the name comes from the path of the undecorated URL; a URL whose path is missing or empty is returned as given |
| Naming.NameIgnoresProxy | app/services/utils.js:258-264 | a URL going through the proxy gets the same name as the address it wraps, when that address is non-empty and parses with a non-empty path |
| Naming.PathlessAddressChangesName | app/services/utils.js:258-264 | a non-empty address that parses without a path is named as given, but its proxied form is named as the whole proxy route, so the two names differ |
| Validation.SplitRecords | app/services/utils.js:80-84 | parser errors reject with the whole error list; otherwise the header followed by the rows gives back the parsed records, and there is no header only when there are no records |
| Validation.Reshape | app/services/utils.js:108-119 | no result gives the "no report" outcome; otherwise there is one entry per row, holding the first value of the row's group (`_.values(item)[0]`) and the shared headers, or nothing when the group has no values |
| Validation.ReshapeKeepsFirstValues | app/services/utils.js:114-118 | the reshaped report holds exactly the first value of every non-empty row group, in row order |
| Validation.EmptyReportIsNotNoReport | app/services/utils.js:109-111 | a report with no rows reshapes to an empty list, which differs from the "no report" outcome |

## Left out

- `app/controllers/pages.js`: template rendering with no logic.
- The transliteration table (`app/services/utils.js:12-48`), `convertToTitle` and `convertToSlug`: these are Inflector behaviour fed by configuration data. The slug is a function parameter.
- The build of `availableDataTypes` by reflection over json-table-schema (`app/services/utils.js:122-133`): the registry is a given list of type ids. A type object is represented by its id. `_.intersection` compares the shared registry objects by identity, which matches comparing ids when the ids are distinct.
- The casts of the json-table-schema types: they are foreign code, given as the predicate `accepts`.
- `getCsvSchema`: the download and parse by PapaParse, its 1000-record preview, `jts.infer` and `csv.unparse` are library calls and I/O. Only the split into headers and rows, and the rejection on parser errors, are modelled. The callback does not `return` after `reject`. The promise is already settled at that point, so the later `resolve` has no effect, and the model shows the rejection only.
- `validateData`: the GoodTables request and the promise are a remote service. Only the reshaping of its result is modelled. What a group's values hold is left to the service; the model is generic in them. `_.extend` mutates the first value in place; the model builds new records instead.
- `url.parse` returns an array for a repeated `url` parameter. The model keeps the `url` parameter as a single string.
- `getAllowedConcepts` tests `_.isArray(concept.allowedTypes)` (`app/services/utils.js:280-283`). The model leaves out the non-array branch, because every catalog entry holds an array.
- Loading `iso4217.json`: the currency list is a parameter.
- Currency.DefaultCurrency: requires a non-empty list, because the source reads `_.first(currencies).code` and throws on an empty list.
- Proxy.UndecorateDecorate: requires a non-empty undecorated address. The source does not round-trip the empty address; see `Proxy.EmptyAddressDoesNotRoundTrip`.
- Proxy.DecorateIdempotent: requires a non-empty undecorated address. The source wraps a decorated empty address a second time; see `Proxy.EmptyAddressDoesNotRoundTrip`.
- Naming.NameIgnoresProxy: requires a non-empty wrapped address with a non-empty path. For any other address the source names the proxied URL after the whole proxy route; see `Naming.PathlessAddressChangesName`.
