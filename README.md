# Form-to-table page: storage and render cycle

A model of `scripts/script.js`, a browser script that collects the named
fields of a form, appends them as a row to a collection kept JSON-encoded in
`sessionStorage` under the key `"table_data"`, and renders that collection
into a table body. The model covers the loader (`load_table_data`), the saver
(`save_table_data`), the renderer (`populate_table`), the clear handler
(`clear_table`), the `DOMContentLoaded` handler (load, then render) and the
form's submit handler (validate, build the row, add `time_stamp`, load,
append, save, render, reset the form).

Modules:

- `Wrappers`: the `Option` type.
- `Text`: `String.prototype.trim` over the white-space and line-terminator
  code points of ECMA-262 (sections 12.2 and 12.3), and the fact that a value
  trims to `""` exactly when it is blank.
- `Rows`: a row is the JavaScript object the submit handler builds, modelled
  as an association list of (name, value) pairs in property order. `Lookup`
  is a property read, `Put` a property write (an existing name keeps its place
  and takes the new value; a new name goes last), `Assign` the assignment
  `obj[k] = v` (a property write, except that `__proto__` goes to the
  `Object.prototype` setter, which ignores a string), `FromEntries` the object
  the entry loop builds, `NewRow` that object with `time_stamp` written last.
- `TableView`: `Render`, the table body for a collection: one row per record
  and one cell per property, holding its value, in property order.
- `Storage`: session storage as `map<string, string>`, the abstract JSON
  `Codec`, `Objects` (every row names each property at most once, as a
  JavaScript object does), `ValidCodec` (what the browser's JSON is assumed
  to give: a collection of objects round-trips, its encoding is never `""`,
  and whatever decodes is a collection of objects), and `LoadTableData`.
- `Page`: a class `PageState` holding `storage`, the rendered `table`, and
  two counters for the UI side effects (`formResets`, `alerts`); its methods
  are the handlers. `Synced()` says the table shows exactly the stored
  collection; the load and clear handlers establish it for any codec, the
  successful submit handler when the codec satisfies `ValidCodec`.

A stored empty string is treated like an absent key (`!raw`,
scripts/script.js:31) and never reaches `JSON.parse`; the comment at line 30
mentions only the absent key.

## Model

| member | source | states |
|---|---|---|
| `Text.TrimStart` | scripts/script.js:156 | the result is the suffix of the input after its leading white space: every dropped character is white space and the result is empty or starts with a non-white-space character |
| `Text.TrimEnd` | scripts/script.js:156 | the result is the prefix of the input before its trailing white space: every dropped character is white space and the result is empty or ends with a non-white-space character |
| `Text.TrimEmptyIffBlank` | scripts/script.js:156 | `value.trim() === ""` holds if and only if every character of the value is white space |
| `Rows.Keys` | scripts/script.js:75 | the property names of a row, one per pair, in property order |
| `Rows.Lookup` | scripts/script.js:82 | a property read finds nothing exactly when the name is not among the row's names, and what it finds is a value paired with that name in the row |
| `Rows.PutKeys` | scripts/script.js:162 | `row[k] = v` leaves the names and their order unchanged when k is already a name, and otherwise adds k as the last name |
| `Rows.PutLookup` | scripts/script.js:162 | after `row[k] = v`, k reads v and every other name reads what it read before |
| `Rows.PutKeepsDistinct` | scripts/script.js:162 | a property write never makes a name occur twice |
| `Rows.LookupAt` | scripts/script.js:82 | in a row whose names are distinct, the i-th pair's name reads the i-th pair's value |
| `Rows.AssignLookup` | scripts/script.js:162 | after `obj[k] = v`, k reads v unless k is `__proto__` (then nothing changes), and every other name reads what it read before |
| `Rows.FromEntriesLookup` | scripts/script.js:153-163 | in the row the entry loop builds, a name reads nothing exactly when it is `__proto__` or no entry has that name, and otherwise reads the value of the last entry with that name |
| `Rows.FromEntriesKeys` | scripts/script.js:153-163 | the built row has distinct names, and its names are exactly the names of the entries other than `__proto__` |
| `Rows.NewRowContents` | scripts/script.js:162-167 | the new row has distinct names; `time_stamp` reads the supplied timestamp even when a form field has that name; every other name reads what the entries gave it; `time_stamp` keeps a colliding field's place and otherwise comes last |
| `Rows.NewRowIgnoresProto` | scripts/script.js:151-167 | a form whose one field is named `__proto__` yields a row with `time_stamp` alone |
| `TableView.RenderShape` | scripts/script.js:61-90 | the table has one row per record, table row i has one cell per property of record i, and cell j holds the value of record i's j-th property |
| `TableView.RenderFidelity` | scripts/script.js:75-86 | for a record with distinct names, cell j of its table row is what the record reads under its j-th name |
| `TableView.RenderAppend` | scripts/script.js:69-90 | rendering a collection with one more record gives the previous table with that record's row appended |
| `Storage.LoadTableData` | scripts/script.js:21-45 | the collection is empty when the key is absent or holds `""`, empty when the stored text does not decode, and otherwise the decoded collection |
| `Storage.LoadGivesObjects` | scripts/script.js:37-39 | with the browser's JSON, every loaded row has distinct names |
| `Storage.LoadAfterSave` | scripts/script.js:21-55 | with the browser's JSON, loading after saving a collection of objects gives exactly that collection, whatever storage held before |
| `Storage.LoadAfterClear` | scripts/script.js:97-105 | loading from the emptied storage gives the empty collection |
| `Page.PageState.constructor` | scripts/script.js:9-15 | a page opened on an existing session storage, with an empty table body and no resets or alerts yet |
| `Page.PageState.SaveTableData` | scripts/script.js:51-55 | the `"table_data"` entry becomes the encoding of the collection and every other key is unchanged |
| `Page.PageState.PopulateTable` | scripts/script.js:61-91 | the table becomes the render of the collection, whatever it held before (so rendering the same collection twice gives the same table); storage is untouched |
| `Page.PageState.ClearTable` | scripts/script.js:97-105 | storage becomes the empty map (every key, not only `"table_data"`), the table has zero rows, a later load gives the empty collection, and the table matches storage |
| `Page.PageState.OnContentLoaded` | scripts/script.js:130-133 | the table becomes the render of the loaded collection; storage is untouched |
| `Page.AppendThenLoad` | scripts/script.js:170-174 | with the browser's JSON, saving the loaded collection plus a new row and loading again gives that collection plus the row |
| `Page.LoadedRowsRenderFaithfully` | scripts/script.js:130-133 | with the browser's JSON, each rendered row of the loaded collection has one cell per property, and cell j is what the record reads under its j-th name |
| `Page.CollectEntries` | scripts/script.js:153-163 | the entry loop fails exactly when some value is blank, and otherwise yields the row the entries write, each name with its last value |
| `Page.PageState.Submit` | scripts/script.js:145-181 | the handler goes ahead exactly when no value is blank; on a blank value storage, table and form are unchanged and one alert is shown; otherwise storage holds the old collection plus the new row, the table is its render, the form is reset once, and with the browser's JSON a load gives the old collection plus the new row and the table matches storage |
| `Page.NewRowOfOneField` | scripts/script.js:151-167 | a form with the single field `name` yields the row `{name, time_stamp}` in that order |
| `Page.TwoSubmissions` | scripts/script.js:145-181 | submitting `{name: "Ana"}` and then `{name: "Iva"}` into an empty session stores both rows, each with its own timestamp, and shows the table `[["Ana", ts1], ["Iva", ts2]]` |

## Left out

- DOM lookup (`getElementById`, `getElementsByClassName`) and listener registration (`addEventListener`): the handlers are methods of `Page`, called by whoever models the browser.
- `e.preventDefault()`: it suppresses navigation and has no data effect.
- `alert` and `form.reset()`: recorded only as the counters `alerts` and `formResets`; the alert's text and the form's field contents are not modelled.
- `console.error` on a parse failure: diagnostic output only.
- `JSON.stringify` and `JSON.parse`: kept abstract as the two functions of a `Codec`; their round trip is the hypothesis `ValidCodec`, not proved.
- Stored text that parses but is not an array of flat string-valued objects is folded into `decode` returning `None`, so it loads as the empty collection. In the source, a non-array value (`null`, a number, a string) makes `forEach` or `push` throw. An array, though, goes through: `[{"a":1}]` renders the cell "1" through `textContent`, a `null` or number element renders an empty row, and a nested object renders "[object Object]". The next submit pushes onto that array and saves it, keeping those rows, where the model's save drops them.
- Page.PageState.SaveTableData: always succeeds. In the source, `sessionStorage.setItem` (scripts/script.js:54) can throw `QuotaExceededError`. The exception then escapes the submit handler at line 174: storage stays as it was, `populate_table` and `form.reset()` never run, and no alert is shown. Page.PageState.Submit does not model that path.
- `new Date().toLocaleString()`: clock- and locale-dependent, passed to `Submit` as a non-empty string.
- `textContent` versus `innerHTML` escaping: cells are plain strings.
- JavaScript's property order puts integer-like names before the others; the model keeps plain insertion order for every name.
- `FormData` entries whose value is a `File`: every entry value is a string here.
- The lifetime of `sessionStorage` across tabs and reloads: the constructor takes whatever storage the tab already holds.
- Rows.FromEntriesKeys: states that the names are distinct and are exactly the entry names, but not their order (first occurrence); that order follows from `Rows.PutKeys` step by step.
