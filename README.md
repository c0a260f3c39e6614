# Résumé API — a Dafny model

This project models the `/api/resume` API of a small Express server (`server.js`).
The server keeps one résumé document in the file `resume-data.json`. The document maps section names (`personal_info`, `skills`, `education`, …) to JSON values. The server offers six operations on it:

- GET the whole document, or GET one section;
- POST: add or overwrite sections with a top-level spread;
- PUT: replace the whole document, once a required-field check passes;
- PATCH: deep-merge the body into the document;
- DELETE a section.

Two helpers sit under these. `readData` creates the file holding `{}` when it is missing. `saveData` overwrites the file.

Files and modules:

- `wrappers.dfy` (`Wrappers`): `Option` and `Result`.
- `json.dfy` (`Json`): the JSON value type, documents as `map<string, Json>`, and JavaScript truthiness (`Truthy`). The handlers test values with truthiness, not with key presence.
- `array_index.dfy` (`ArrayIndex`): which property names denote array elements (canonical decimals below 2^32 − 1). It proves that `ParseIndex` and `IndexName` are inverse.
- `merge.dfy` (`Merge`): `deepMerge`. Specification functions (`MergeInto`, `MergeFields`, `MergeElements`) give the merged value. The methods `DeepMerge`, `MergeObject` and `MergeArray` run the source's `for … in` loop and are proved equal to them.
- `merge_laws.dfy` (`MergeLaws`): what PATCH promises. Per-key behaviour, no key removed, idempotence, merging into `{}` copies the patch, every patch value readable afterwards where no truthy scalar or array is in the way, and worked examples.
- `documents.dfy` (`Documents`): section lookup, POST's spread, PUT's check and DELETE's removal, with lemmas relating them.
- `resume_api.dfy` (`ResumeApi`): class `Store`. Its field `file` stands for the backing file, and a ghost counter `writes` counts the writes. `ReadData` returns the loaded document or the failure, and `SaveData` overwrites the file. Each handler method returns a `Response`: the status and JSON body the handler sends.

How the merge treats each kind of existing value, as `server.js:112-121` does:

- The seed is `target[key] || {}`. A falsy old value (null, false, 0, "") or a missing one is replaced by a fresh object, so an object in the patch is copied over it.
- A truthy string, number or `true` is passed on as a primitive. Property writes on a primitive do nothing in this non-strict file, so the old scalar is kept. The model states this case explicitly; it excludes nothing by a precondition.
- An existing array receives the patch's index-named keys as element writes. Missing elements become holes, which serialise as `null`. Other keys become array properties that `JSON.stringify` drops.
- An array, `null` or scalar in the patch is assigned whole; only plain objects recurse (`server.js:114`).

The model follows the code as written:

- PUT's check is truthiness (`!newData.personal_info || !newData.skills`, `server.js:91`). So `{personal_info: {}, skills: []}` is accepted: the check is truthiness, not presence; see `Documents.EmptyRequiredFieldsPass`. A present but falsy field (`null`, `false`, `0` or `""`) is rejected; see `Documents.FalsyRequiredFieldsFail`.
- GET section and DELETE answer 404 when the section is falsy, not only when it is absent (`server.js:57`, `server.js:138`).
- PUT does not read the file first. A missing file is therefore not created by PUT; PUT writes the body directly.
- POST and PATCH read the file before checking the body. An empty body on a missing file still creates the file holding `{}`, then answers 400.

## Model

| member | source | states |
|---|---|---|
| Json.Truthy | server.js:57 | arrays and objects are always truthy, even when empty; null never is |
| Json.TruthyAt | server.js:57 | a truthy lookup `data[key]` implies the key is present, and a present object or array value always passes it |
| Json.FalsyValues | server.js:57-59 | a value is falsy exactly when it is null, false, 0 or ""; empty objects and arrays are truthy |
| ArrayIndex.IndexName | server.js:113-118 | the name of an array element is a canonical decimal (no leading zero except "0" itself) |
| ArrayIndex.ParseIndex | server.js:113-118 | a key denotes an array element only when it is a canonical decimal below 2^32 − 1 |
| ArrayIndex.IndexNameValue | server.js:113-118 | the name of element i denotes i |
| ArrayIndex.CanonicalIsIndexName | server.js:113-118 | every canonical decimal is the name of the number it denotes |
| ArrayIndex.ParseIndexName | server.js:113-118 | reading the name of index i gives i back |
| ArrayIndex.ParseIndexInverse | server.js:113-118 | a key that denotes index i is that index's only name |
| Merge.Seed | server.js:115 | the seed of a nested merge (the old value, or `{}` when that is falsy) is never falsy, so a nested merge never starts from null |
| Merge.MergeInto | server.js:112-121 | merging keeps the kind of the target: objects stay objects, arrays stay arrays, truthy scalars are returned unchanged |
| Merge.Assigned | server.js:114-117 | a value that is not a plain object is written as it is; a plain object becomes the (truthy) merge of it into the seed |
| Merge.MergeFields | server.js:113-119 | merging into an object yields exactly the keys of both; keys the patch does not name keep their values |
| Merge.MergedElement | server.js:113-118 | an element whose index the patch does not name keeps its old value, and a position past the old end reads as a null hole |
| Merge.MergeElements | server.js:113-119 | merging into an array never shortens it, and elements whose index the patch does not name are unchanged |
| Merge.SetIndex | server.js:117 | writing element i overwrites it, or grows the array to i + 1 with null holes; every other element is unchanged |
| Merge.ExtentIsMax | server.js:113-118 | an array target grows to one past the largest index the patch names |
| Merge.ExtentInsert | server.js:113-118 | one more key moves that length past the index the key names, if it names one |
| Merge.ArrayWriteStep | server.js:113-118 | one more key of the patch overwrites or adds the element it names, and changes nothing when it names none |
| Merge.MergeNothingIntoArray | server.js:113-120 | an array merged with an empty patch is unchanged |
| Merge.DeepMerge | server.js:112-121 | `deepMerge(target, source)` returns exactly the merged value `MergeInto` specifies |
| Merge.MergeObject | server.js:113-119 | the `for … in` loop over an object target computes `MergeFields`, in whatever order it takes the keys |
| Merge.MergeArray | server.js:113-119 | the `for … in` loop over an array target computes `MergeElements`, in whatever order it takes the keys |
| MergeLaws.PatchKeepsOtherKeys | server.js:112-121 | a merge never removes a key; keys the patch does not name keep their values |
| MergeLaws.PatchWritesValue | server.js:114-117 | an array, null or scalar in the patch is written as it is; an object over a falsy or missing value becomes exactly that object |
| MergeLaws.PatchMergesInto | server.js:114-115 | an object over a truthy value merges into it: key by key into an object, element by element into an array, not at all into a string, number or true |
| MergeLaws.MergeIntoEmptyObject | server.js:115 | merging a patch into `{}` yields the patch itself |
| MergeLaws.MergeNothing | server.js:113-120 | an empty patch changes nothing |
| MergeLaws.FlatPatchIsSpread | server.js:112-121 | with no nested objects in the patch, PATCH stores exactly what POST's spread stores |
| MergeLaws.MergeIdempotent | server.js:112-121 | applying the same patch twice gives what applying it once gives |
| MergeLaws.FieldsIdempotent | server.js:113-119 | the same, for an object target |
| MergeLaws.ElementsIdempotent | server.js:113-119 | the same, for an array target |
| MergeLaws.AssignedIdempotent | server.js:114-118 | the same, for the value written at one key |
| MergeLaws.PatchCarried | server.js:112-121 | where no truthy scalar or array stands in the patch's way, every value of the patch can be read back at its path |
| MergeLaws.NestedObjectsMerge | server.js:115 | {a:{x:1}} merged into {a:{y:2}} gives {a:{x:1,y:2}} |
| MergeLaws.ArraysReplaced | server.js:114-117 | {a:[1,2]} merged into {a:[9]} gives {a:[1,2]} |
| MergeLaws.NullOverwrites | server.js:114-117 | {a:null} merged into {a:{y:2}} gives {a:null} |
| MergeLaws.TruthyScalarKept | server.js:115 | {a:{b:1}} merged into {a:"x"} leaves {a:"x"} |
| MergeLaws.FalsyReplaced | server.js:115 | {a:{b:1}} merged into {a:0} gives {a:{b:1}} |
| MergeLaws.ObjectIntoArray | server.js:115-117 | {a:{"2":5,"x":1}} merged into {a:[9]} gives {a:[9,null,5]} |
| Documents.Section | server.js:57-61 | a section is found exactly when it is present and truthy, and then its value is returned |
| Documents.HasRequiredFields | server.js:91 | a body that passes PUT's check has both `personal_info` and `skills`, neither of them null |
| Documents.AddSections | server.js:77 | every body key maps to the body's value, every other key keeps its value, and the keys are the union |
| Documents.RemoveSection | server.js:142 | exactly the named key is removed; every other key keeps its value |
| Documents.SectionAfterAdd | server.js:77 | after POST a section reads as the body's if the body names it, and as before otherwise |
| Documents.SectionAfterRemove | server.js:142 | after DELETE the section is not found and every other section reads as before |
| Documents.AddUndoesRemove | server.js:77 | posting a deleted section's old value back restores the document |
| Documents.AddIdempotent | server.js:77 | posting the same body twice gives what posting it once gives |
| Documents.EmptyRequiredFieldsPass | server.js:91-93 | `{personal_info:{}, skills:[]}` passes PUT's check |
| Documents.FalsyRequiredFieldsFail | server.js:91-93 | a present but falsy `personal_info` or `skills` fails PUT's check |
| Documents.PostDoesNotRecurse | server.js:77 | POST of {a:{x:1}} over {a:{y:2}} gives {a:{x:1}}, unlike PATCH |
| ResumeApi.Load | server.js:24-35 | a read fails exactly when the file is unreadable or does not parse; a missing file reads as `{}` |
| ResumeApi.AfterLoad | server.js:24-35 | after a read the file is never missing, and reading it again returns the same result |
| ResumeApi.LazyCreation | server.js:24-35 | a missing file reads as `{}` and is created; a second read returns the same and creates nothing; only unreadable or unparsable files fail |
| ResumeApi.SaveThenLoad | server.js:37-39 | what is saved is what the next read returns |
| ResumeApi.Store.ReadData | server.js:24-35 | returns the stored document, or `{}` after creating a missing file (one write), or the read or parse failure with the file untouched |
| ResumeApi.Store.SaveData | server.js:37-39 | the file holds exactly the given document afterwards, whatever it held before |
| ResumeApi.Store.GetAll | server.js:42-50 | 200 with the whole document, or 500 on a read failure; nothing is written apart from lazy creation |
| ResumeApi.Store.GetSection | server.js:52-66 | 200 with the section when it is truthy, 404 when it is absent or falsy, 500 on a read failure; nothing is written apart from lazy creation |
| ResumeApi.Store.Post | server.js:68-85 | 400 for an empty body, with no write apart from lazy creation; otherwise the file holds the top-level spread of the body over the document |
| ResumeApi.Store.Put | server.js:87-101 | 400 and no write unless both required fields are truthy; otherwise the file holds the body verbatim, so keys absent from it are dropped |
| ResumeApi.Store.Patch | server.js:103-131 | 400 for an empty body, with no write apart from lazy creation; otherwise the file holds the deep merge of the body into the document |
| ResumeApi.Store.Delete | server.js:133-150 | 404 when the section is falsy, with no write apart from lazy creation; otherwise exactly that key is removed and stored |

## Left out

- Express plumbing is not modelled: the middleware (helmet, cors, morgan, the JSON body parser), `app.listen`, the generic error middleware and `console` logging. Each handler returns its status and body as a value.
- The health endpoint is not modelled; it reports only a wall-clock timestamp.
- `script.js` is not part of this model. It is the browser UI: rendering, theme toggle, typing animation, the fetch calls and the modals.
- The file is an abstract field, not real I/O. Its text and the `JSON.stringify`/`JSON.parse` round trip are not modelled; a parse error is the `Corrupt` state. A file holding a JSON value other than an object is not modelled.
- Failed writes are not modelled. In the source, a `writeFile` that rejects (in `saveData` or in `readData`'s creation) leads to 500 and possibly a partly written file. In the model every write succeeds.
- Concurrent requests are not modelled: interleaved read-then-write sequences in which the last write wins. Each handler runs alone.
- Numbers are unbounded integers. Fractions, `NaN` (which is falsy) and `-0` are not modelled.
- Request bodies are assumed to be JSON objects with own keys only; array bodies are not modelled. The model assumes the body parser always supplies an object, as `express.json` in Express 4 does, so the `!newData` test never fires. With a parser that leaves the body undefined (Express 5 without a JSON content type), POST and PATCH answer 400, and PUT throws at `server.js:91` and answers 500; that case is not modelled.
- Documents whose serialisation exceeds the JavaScript engine's maximum string length are not modelled. A PATCH such as `{"skills": {"100000000": 1}}` over an array grows it into a huge sparse array; `JSON.stringify` then throws a RangeError, so the source answers 500 and leaves the file untouched, where the model answers 200 and stores the grown array.
- Keys naming members of `Object.prototype` (`__proto__`, `constructor`, `toString`, …) are not modelled. The source reads inherited values through them: GET or DELETE of such a section sees a truthy inherited value (a function for `constructor` or `toString`, `Object.prototype` for `__proto__`), and PATCH with an object under `__proto__` writes into `Object.prototype`. The model treats every key as an ordinary own key.
- The key `length` in a patch object merged into an existing array is not modelled. The source sets the array's length, or throws a RangeError that ends in 500. The model treats it like any other non-index key, which is dropped.
- Update in place is modelled on values. `deepMerge` mutates the loaded objects in place; the model computes the merged value. The loaded document is fresh on every request, so no aliasing can be observed.
- Property order is not modelled: documents are maps, and the key order `JSON.stringify` writes is not kept.
