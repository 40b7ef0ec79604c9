# Solr MCP server: document ingestion and base-URL normalization

A Dafny model of two pieces of the Solr MCP server.

**Ingestion pipeline (`IndexingService`).** It turns JSON text into flat
Solr documents and submits them to a collection:

- **Field-name sanitizer** (`FieldNames`). A name is lower-cased, every
  character outside `[a-z0-9_]` becomes `_`, runs of `_` collapse into one,
  and leading and trailing `_` are removed.
- **Value converter** (`JsonValues`). A JSON scalar becomes a stored value of
  the same kind: a boolean, a 32-bit integer when the number fits, a 64-bit
  integer otherwise, a double (kept as an opaque token), or a string. Null,
  arrays and objects are not scalars.
- **Flattener** (`Flattener`). Each element of a top-level JSON array becomes
  one flat document, a map from field names to values.
  - A nested object contributes its fields under the path of keys joined
    with `_`, then sanitized.
  - An array of scalars becomes one list-valued field and keeps its
    non-null items in order.
  - An array holding an object or an array gives no field.
  - A null value gives no field.
  - A later member that sanitizes to the same name overwrites the earlier
    one (`FlattenerExamples.CollidingKeys`).
  - A JSON value that is not an array gives no documents.
- **Two-tier indexer** (`Indexer`).
  - It sends one batch add of the whole list.
  - If the engine refuses the batch, it sends one add per document in list
    order, counts the documents taken and skips the refused ones.
  - Either way it then sends exactly one commit.
  - The result is the count, or a failure when the commit fails.
  - The JSON-text entry point flattens first. A text that does not parse is
    reported before anything is sent.

The flattener is defined twice, proved equal by `Flattener.FlattenFromIsApply`:

- as recursion that updates a document member by member;
- as a reference list of field writes applied in order.

The search-engine client is a class whose answers are fixed when it is built.
It keeps a log of every request, and the indexer's contract states the whole
log it leaves behind: the batch attempt, then the fallback adds only when the
batch is refused, then the commit (`Indexer.Protocol`).

**Base-URL normalization** (`SolrUrl.NormalizeUrl`, SolrConfig.java:112-127).
The configured URL gets a trailing `/`. `solr/` is appended when the
slash-terminated URL does not contain `/solr/`. The inner branch that would
append `/solr/` to a URL not ending in `/` cannot be taken; the function
records this with `assert false`.

Files:

- `wrappers.dfy`: `Option` and `Result`.
- `field_names.dfy`, `field_name_examples.dfy`: the sanitizer.
- `json_values.dfy`: the converter.
- `flattener.dfy`, `flattener_examples.dfy`: the flattener.
- `indexer.dfy`: the indexer.
- `solr_url.dfy`: the URL normalizer.

## Model

| member | source | states |
|---|---|---|
| FieldNames.LowerChar | src/test/java/org/apache/solr/mcp/server/IndexingServiceTest.java:703-725 | an upper-case ASCII letter becomes its lower-case letter and every other character is kept |
| FieldNames.Lower | src/test/java/org/apache/solr/mcp/server/IndexingServiceTest.java:703-725 | lowering keeps the length of the name (position by position in `FieldNames.PrepareAt`) |
| FieldNames.ReplaceInvalid | src/test/java/org/apache/solr/mcp/server/IndexingServiceTest.java:700-728 | replacing invalid characters keeps the length of the name (position by position in `FieldNames.PrepareAt`) |
| FieldNames.Collapse | src/test/java/org/apache/solr/mcp/server/IndexingServiceTest.java:706-728 | collapsing runs of `_` never lengthens the name |
| FieldNames.Strip | src/test/java/org/apache/solr/mcp/server/IndexingServiceTest.java:704-727 | stripping removes at most two characters, and leaves a non-empty name with no `_` at either end unchanged |
| FieldNames.Sanitize | src/test/java/org/apache/solr/mcp/server/IndexingServiceTest.java:720-728 | a sanitized name is never longer than the key; its grammar and content are stated by the two rows below |
| FieldNames.PrepareAt | src/test/java/org/apache/solr/mcp/server/IndexingServiceTest.java:720-728 | position by position, a character outside `[a-z0-9_]` (after lowering) becomes `_` and an upper-case letter is lowered |
| FieldNames.CollapseNoDoubles | src/test/java/org/apache/solr/mcp/server/IndexingServiceTest.java:706-728 | after collapsing, no two underscores are adjacent |
| FieldNames.SanitizeIsSanitized | src/test/java/org/apache/solr/mcp/server/IndexingServiceTest.java:720-728 | every sanitized name uses only `[a-z0-9_]`, has no doubled underscore and no leading or trailing underscore |
| FieldNames.SanitizeKeepsWords | src/test/java/org/apache/solr/mcp/server/IndexingServiceTest.java:720-728 | the letters and digits of the name survive in their order, lowered; only underscores are added or removed |
| FieldNames.SanitizeEmpty | src/test/java/org/apache/solr/mcp/server/IndexingServiceTest.java:720-728 | a name sanitizes to the empty name exactly when it holds no letter or digit |
| FieldNames.SanitizeFixpoint | src/test/java/org/apache/solr/mcp/server/IndexingServiceTest.java:112-114 | a name that is already clean (`series_t`, `genre_s`) is left unchanged |
| FieldNames.SanitizeIdempotent | src/test/java/org/apache/solr/mcp/server/IndexingServiceTest.java:112-114 | sanitizing twice gives what sanitizing once gives |
| FieldNames.SanitizeClean | src/test/java/org/apache/solr/mcp/server/IndexingServiceTest.java:92-103 | a name that only needs lowering (`inStock`) is stored lowered |
| FieldNames.SanitizedJoin | src/test/java/org/apache/solr/mcp/server/IndexingServiceTest.java:286-302 | two clean non-empty names joined by `_` form a clean name |
| FieldNames.SanitizeSeparated | src/test/java/org/apache/solr/mcp/server/IndexingServiceTest.java:700-702 | two clean words split by any run of separators come out joined by one `_` |
| FieldNames.SanitizeTrimmed | src/test/java/org/apache/solr/mcp/server/IndexingServiceTest.java:704-705 | separators before and after a clean name are removed |
| FieldNames.SanitizeJoined3 | src/test/java/org/apache/solr/mcp/server/IndexingServiceTest.java:473-501 | three clean words split by two separators come out joined by `_` |
| FieldNameExamples.Hyphens | src/test/java/org/apache/solr/mcp/server/IndexingServiceTest.java:700-722 | `field-with-hyphens` is stored as `field_with_hyphens` |
| FieldNameExamples.Dots | src/test/java/org/apache/solr/mcp/server/IndexingServiceTest.java:701-723 | `field.with.dots` is stored as `field_with_dots` |
| FieldNameExamples.Spaces | src/test/java/org/apache/solr/mcp/server/IndexingServiceTest.java:702-724 | `field with spaces` is stored as `field_with_spaces` |
| FieldNameExamples.UppercaseField | src/test/java/org/apache/solr/mcp/server/IndexingServiceTest.java:703-725 | `UPPERCASE_FIELD` is stored as `uppercase_field` |
| FieldNameExamples.Uppercase | src/test/java/org/apache/solr/mcp/server/IndexingServiceTest.java:321-363 | `UPPERCASE` is stored as `uppercase` |
| FieldNameExamples.LeadingUnderscores | src/test/java/org/apache/solr/mcp/server/IndexingServiceTest.java:704-726 | `__leading_underscores__` is stored as `leading_underscores` |
| FieldNameExamples.TrailingUnderscores | src/test/java/org/apache/solr/mcp/server/IndexingServiceTest.java:705-727 | `trailing_underscores___` is stored as `trailing_underscores` |
| FieldNameExamples.MultipleUnderscores | src/test/java/org/apache/solr/mcp/server/IndexingServiceTest.java:706-728 | `multiple___underscores` and `multiple__underscores` are both stored as `multiple_underscores` |
| FieldNameExamples.InvalidFieldNames | src/test/java/org/apache/solr/mcp/server/IndexingServiceTest.java:319-354 | `invalid-field` and `another.invalid` are stored as `invalid_field` and `another_invalid` |
| FieldNameExamples.FieldWith | src/test/java/org/apache/solr/mcp/server/IndexingServiceTest.java:473-548 | `field` c `with` d x, for separators c and d and a clean x, is stored as `field_with_` x |
| FieldNameExamples.SpecialCharacterNames | src/test/java/org/apache/solr/mcp/server/IndexingServiceTest.java:478-548 | each of the 28 characters used in the test's 24 names becomes `_`, giving `field_with_` x |
| FieldNameExamples.MixedCaseKey | src/test/java/org/apache/solr/mcp/server/IndexingServiceTest.java:92-103 | `inStock` is stored as `instock`, a different name |
| FieldNameExamples.DynamicFieldSuffixes | src/test/java/org/apache/solr/mcp/server/IndexingServiceTest.java:60-62 | `series_t`, `sequence_i`, `genre_s` and `id` are kept as they are |
| JsonValues.ToJson | src/test/java/org/apache/solr/mcp/server/IndexingServiceTest.java:659-689 | every stored value comes from a scalar JSON value other than null |
| JsonValues.Convert | src/test/java/org/apache/solr/mcp/server/IndexingServiceTest.java:659-689 | exactly the non-null scalars convert; the result maps back to the same JSON value; an integer is stored as 32-bit when it fits and as 64-bit only when it does not |
| JsonValues.ConvertToJson | src/test/java/org/apache/solr/mcp/server/IndexingServiceTest.java:659-689 | converting a stored value back and forth returns it unchanged |
| JsonValues.ConvertInteger | src/test/java/org/apache/solr/mcp/server/IndexingServiceTest.java:666-688 | an integer becomes a 32-bit value with the same number when it fits in 32 bits and a 64-bit value with the same number otherwise |
| JsonValues.ConvertTestedValues | src/test/java/org/apache/solr/mcp/server/IndexingServiceTest.java:685-689 | `true`, `42`, `9223372036854775807`, a string and a double token keep their kind and width |
| Flattener.ScalarList | src/test/java/org/apache/solr/mcp/server/IndexingServiceTest.java:616-623 | the stored list is never longer than the array |
| Flattener.FlattenMember | src/test/java/org/apache/solr/mcp/server/IndexingServiceTest.java:286-302 | setting one member's fields never removes a field already in the document |
| Flattener.FlattenFrom | src/test/java/org/apache/solr/mcp/server/IndexingServiceTest.java:286-302 | setting the fields of members i.. never removes a field already in the document |
| Flattener.FlattenRecord | src/test/java/org/apache/solr/mcp/server/IndexingServiceTest.java:638-656 | a record that is not an object flattens to the empty document |
| Flattener.FlattenFromIsApply | src/test/java/org/apache/solr/mcp/server/IndexingServiceTest.java:286-302 | the recursive flattener equals applying, in member order, the list of field writes its reference definition produces |
| Flattener.ApplyKeys | src/test/java/org/apache/solr/mcp/server/IndexingServiceTest.java:286-302 | the fields of a document are the names written, plus those already present |
| Flattener.LastWriteWins | src/test/java/org/apache/solr/mcp/server/IndexingServiceTest.java:286-302 | a name written again by a later member keeps the later value |
| Flattener.RecordFields | src/test/java/org/apache/solr/mcp/server/IndexingServiceTest.java:68-75 | the fields of a flattened record are exactly the names its writes produce |
| Flattener.RecordFieldsSanitized | src/test/java/org/apache/solr/mcp/server/IndexingServiceTest.java:720-728 | every field name of every flattened document is sanitized |
| Flattener.MixedCaseKeyAbsent | src/test/java/org/apache/solr/mcp/server/IndexingServiceTest.java:92-103 | no flattened document has a field named `inStock` |
| Flattener.WritesNames | src/test/java/org/apache/solr/mcp/server/IndexingServiceTest.java:286-302 | a name is written by the members from position i on exactly when one of those members writes it |
| Flattener.MemberDecides | src/test/java/org/apache/solr/mcp/server/IndexingServiceTest.java:286-302 | a member writing the one name no later member writes determines that field |
| Flattener.ScalarMember | src/test/java/org/apache/solr/mcp/server/IndexingServiceTest.java:112-114 | a scalar member is stored under its sanitized key with its converted value, unless a later member reuses the name |
| Flattener.ScalarArrayMember | src/test/java/org/apache/solr/mcp/server/IndexingServiceTest.java:616-623 | an array of scalars becomes one list field under the sanitized key |
| Flattener.ContainerArrayMember | src/test/java/org/apache/solr/mcp/server/IndexingServiceTest.java:625-635 | an array holding an object or array gives no field |
| Flattener.NullMember | src/test/java/org/apache/solr/mcp/server/IndexingServiceTest.java:92-103 | a null member gives no field, unless another member writes the same name |
| Flattener.CleanRecordFields | src/test/java/org/apache/solr/mcp/server/IndexingServiceTest.java:659-689 | in a record of clean distinct keys and no nested objects, the fields are the keys with a storable value, each holding that value |
| Flattener.CleanRecordDocument | src/test/java/org/apache/solr/mcp/server/IndexingServiceTest.java:659-689 | such a record flattens to exactly the expected document |
| Flattener.ScalarListKeepsAll | src/test/java/org/apache/solr/mcp/server/IndexingServiceTest.java:616-623 | an array of non-null scalars keeps every item, in order, as the same value |
| Flattener.NestedMember | src/test/java/org/apache/solr/mcp/server/IndexingServiceTest.java:286-302 | a field inside a nested object is stored under the sanitized underscore-joined path of the two keys |
| Flattener.CleanJoin | src/test/java/org/apache/solr/mcp/server/IndexingServiceTest.java:286-302 | joining two clean keys gives a name the sanitizer leaves alone |
| Flattener.NestedPair | src/test/java/org/apache/solr/mcp/server/IndexingServiceTest.java:240-302 | the first two scalar members of a nested object are both stored under `key_a` and `key_b` |
| Flattener.NestedLeaf | src/test/java/org/apache/solr/mcp/server/IndexingServiceTest.java:436-454 | flattening a chain of nested keys stores the leaf under the joined path |
| Flattener.PathOfSanitized | src/test/java/org/apache/solr/mcp/server/IndexingServiceTest.java:436-454 | the joined path of clean keys is clean |
| Flattener.DeepNesting | src/test/java/org/apache/solr/mcp/server/IndexingServiceTest.java:436-454 | a chain of nested clean keys of any depth flattens to one field named by the keys joined with `_`, and nothing else |
| Flattener.PathCons | src/test/java/org/apache/solr/mcp/server/IndexingServiceTest.java:384-454 | a path that enters a nested object continues inside it, and its raw name and later writes extend accordingly |
| Flattener.PathField | src/test/java/org/apache/solr/mcp/server/IndexingServiceTest.java:384-454 | at any depth, a non-null scalar at the end of a path is stored under its sanitized raw key path, unless a later write reuses that name |
| Flattener.PathNameUnique | src/test/java/org/apache/solr/mcp/server/IndexingServiceTest.java:384-454 | when every key is a lower-case word and sibling keys differ, a path's joined keys are a clean name that no later write reuses |
| Flattener.WordKeyedField | src/test/java/org/apache/solr/mcp/server/IndexingServiceTest.java:384-454 | in such a record, every non-null scalar leaf, at any depth and among any siblings, is stored under its keys joined with `_` |
| Flattener.CreateDocuments | src/test/java/org/apache/solr/mcp/server/IndexingServiceTest.java:638-656 | a top-level array gives one document per element, in order; any other JSON value gives no document |
| Flattener.DocumentsKeepIds | src/test/java/org/apache/solr/mcp/server/IndexingServiceTest.java:68-75 | N records each carrying an `id` give N documents keeping their `id` values, in order |
| Flattener.CreateSchemalessDocuments | src/test/java/org/apache/solr/mcp/server/IndexingServiceDirectTest.java:176-190 | a text that does not parse gives the parse error; otherwise the documents of the parsed value |
| FlattenerExamples.DetailsFields | src/test/java/org/apache/solr/mcp/server/IndexingServiceTest.java:241-302 | the test's nested-object record keeps `id` and the `name` list, and its `details` object yields `details_publisher` and `details_year` with their values |
| FlattenerExamples.DeepNestedField | src/test/java/org/apache/solr/mcp/server/IndexingServiceTest.java:384-454 | the deeply nested test record stores `..._publisher_name`, `..._location_city`, `..._coordinates_latitude`, `..._notes_condition` and `..._secondary_subcategory` with their values |
| FlattenerExamples.ValueTypesDocument | src/test/java/org/apache/solr/mcp/server/IndexingServiceTest.java:659-689 | the value-type record flattens to exactly its six fields, each of its own kind and width |
| FlattenerExamples.KeywordsList | src/test/java/org/apache/solr/mcp/server/IndexingServiceTest.java:594-623 | `["arrays", "objects", "testing"]` becomes the list of those three strings |
| FlattenerExamples.ArraysOfObjectsDocument | src/test/java/org/apache/solr/mcp/server/IndexingServiceTest.java:560-636 | the record with `authors` and `reviews` arrays of objects flattens to exactly `id`, `title` and the `keywords` list |
| FlattenerExamples.InStockField | src/test/java/org/apache/solr/mcp/server/IndexingServiceTest.java:58-103 | at any position, `inStock: [true]` not overwritten later is stored as the list `[true]` under `instock`, and nothing under `inStock` |
| FlattenerExamples.CollidingKeys | src/test/java/org/apache/solr/mcp/server/IndexingServiceTest.java:700-728 | illustrates last-write-wins for sanitized names, which no test exercises: `a-b` and `a_b` sanitize to one name and only the later value is kept |
| Indexer.SolrClient.constructor | src/test/java/org/apache/solr/mcp/server/IndexingServiceDirectTest.java:22-36 | a client starts with an empty call log and the given answers |
| Indexer.SolrClient.AddAll | src/test/java/org/apache/solr/mcp/server/IndexingServiceDirectTest.java:50-51 | a batch add answers as fixed and is logged |
| Indexer.SolrClient.Add | src/test/java/org/apache/solr/mcp/server/IndexingServiceDirectTest.java:88-97 | a single add answers as fixed for that document and is logged |
| Indexer.SolrClient.Commit | src/test/java/org/apache/solr/mcp/server/IndexingServiceDirectTest.java:69-70 | a commit answers as fixed and is logged |
| Indexer.IndexDocuments | src/test/java/org/apache/solr/mcp/server/IndexingServiceDirectTest.java:49-70 | the log grows by one batch add, then (only if the batch was refused) one add per document in list order, then one commit; the result is the count of taken documents, or the failed commit |
| Indexer.IndexJson | src/test/java/org/apache/solr/mcp/server/IndexingServiceDirectTest.java:152-190 | a text that does not parse is reported and sends nothing; otherwise exactly the flattened documents are indexed as above |
| Indexer.ProtocolCounts | src/test/java/org/apache/solr/mcp/server/IndexingServiceDirectTest.java:63-70 | one call sends exactly one batch add and one commit, and as many single adds as documents exactly when the batch was refused |
| Indexer.ProtocolOrder | src/test/java/org/apache/solr/mcp/server/IndexingServiceDirectTest.java:63-67 | the batch add comes first, the commit last, and the single adds in between follow the list order |
| Indexer.AcceptedPositions | src/test/java/org/apache/solr/mcp/server/IndexingServiceDirectTest.java:88-103 | the fallback count is the number of positions whose document the engine takes |
| Indexer.AcceptedBound | src/test/java/org/apache/solr/mcp/server/IndexingServiceDirectTest.java:88-103 | the fallback count never exceeds the list length, and equals it exactly when every document is taken |
| Indexer.SuccessCountBound | src/test/java/org/apache/solr/mcp/server/IndexingServiceDirectTest.java:100-103 | the reported count never exceeds the list length |
| Indexer.BatchRefusedAllAccepted | src/test/java/org/apache/solr/mcp/server/IndexingServiceDirectTest.java:49-70 | a refused batch of ten whose single adds all succeed counts ten, after one batch add, ten adds and one commit |
| Indexer.BatchRefusedEvenAccepted | src/test/java/org/apache/solr/mcp/server/IndexingServiceDirectTest.java:84-112 | a refused batch of ten whose even-numbered adds succeed counts five, after one batch add, ten adds and one commit |
| Indexer.BatchTaken | src/test/java/org/apache/solr/mcp/server/IndexingServiceDirectTest.java:49-70 | a batch that is taken counts every document and sends no single add, the branch the refused-batch tests do not take |
| Indexer.CommitFailureReported | src/test/java/org/apache/solr/mcp/server/IndexingServiceDirectTest.java:69-70 | the commit is sent once whatever the batch did, and its failure is the result even when every document was taken |
| SolrUrl.EnsureTrailingSlash | src/main/java/org/apache/solr/mcp/server/SolrConfig.java:116-118 | the URL ends with `/`, and is changed (by one `/`) only when it did not |
| SolrUrl.NormalizeUrl | src/main/java/org/apache/solr/mcp/server/SolrConfig.java:112-127 | the base URL handed to the client ends with `/` and begins with the configured URL |
| SolrUrl.ContainsIff | src/main/java/org/apache/solr/mcp/server/SolrConfig.java:121 | the containment test holds exactly when the needle occurs at some position |
| SolrUrl.NormalizeShape | src/main/java/org/apache/solr/mcp/server/SolrConfig.java:116-127 | the result ends with `/`, contains `/solr/`, starts with the input and adds one of ``, `/`, `solr/`, `/solr/` |
| SolrUrl.NormalizeUnchanged | src/main/java/org/apache/solr/mcp/server/SolrConfig.java:121 | a URL is left unchanged exactly when it ends with `/` and contains `/solr/` |
| SolrUrl.NormalizeIdempotent | src/main/java/org/apache/solr/mcp/server/SolrConfig.java:116-127 | normalizing twice gives what normalizing once gives |
| SolrUrl.NormalizeKeepsSolrPath | src/main/java/org/apache/solr/mcp/server/SolrConfig.java:121 | a URL containing `/solr/` anywhere only gets the trailing `/` |
| SolrUrl.NormalizeAddsSolrPath | src/main/java/org/apache/solr/mcp/server/SolrConfig.java:120-124 | a URL that does not contain `/solr/` even after the trailing `/` is added gets `solr/`, after a `/` when it lacked one |
| SolrUrl.DocumentedHostForms | src/main/java/org/apache/solr/mcp/server/SolrConfig.java:49-50 | `http://localhost:8983` and `http://localhost:8983/` both become `http://localhost:8983/solr/` |
| SolrUrl.DocumentedSolrForms | src/main/java/org/apache/solr/mcp/server/SolrConfig.java:51-52 | `http://localhost:8983/solr` becomes `http://localhost:8983/solr/`, which is unchanged |

## Left out

- IndexingService.java is not part of this model. The pipeline's behaviour is taken from the two test files IndexingServiceTest.java and IndexingServiceDirectTest.java. Where the tests are silent the model fixes the behaviour as follows:
  - Null values give no field.
  - Non-object elements of the top-level array give empty documents.
  - Arrays holding an array give no field.
- Array policy: an array holding any object or array gives no field at all. The comment at IndexingServiceTest.java:630-631 says object items are skipped. An empty or all-null array is stored here as the empty list `Multi([])`. For the tested arrays, which hold only objects, the two readings give the same document only if the per-item reading also drops a list that is left empty. An array mixing scalars and objects is dropped here, where a per-item skip would keep its scalars.
- Null items of an array of scalars are dropped from the stored list (`Flattener.ScalarList`), although the documented array policy counts null among the scalars; a per-item reading that stored them would differ.
- JSON text parsing is left to the JSON library and is not modelled. It is a parameter `parse: string -> Result<Json, string>` of `CreateSchemalessDocuments` and `IndexJson`, and a failure is propagated as `InvalidJson`. A number outside the 64-bit range is a parse error and never reaches the flattener.
- The Solr client's network calls, timeouts and exceptions are left out. A client's answers are fixed values: batch acceptance is a function of the list, single acceptance a function of the document, and commit success a constant. Engine-side effects, such as which documents become searchable, are not modelled. An answer that depends on the collection is not modelled.
- Double values are opaque tokens: no floating-point parsing, rounding or comparison.
- Field order within a document is not modelled: a document is a map.
- Lowercasing covers ASCII letters only. Locale-dependent and non-ASCII case mapping is left out.
- In IndexingServiceTest.java `collectionCreated` (line 29) is never set to true, so the tests guarded at lines 120, 235, 309, 378, 468 and 554 return before asserting anything; only the tests at lines 48-115 and 638-729 reach their assertions. The guarded tests are read here as a statement of intent.
- The special-character record (IndexingServiceTest.java:474-501) is written in a Java text block, which turns `\"` into `"` and `\\` into `\`; the JSON text that results would not parse. The model takes the keys as the test lists them.
- The tests that index into a live Solr container and search the results are not modelled. Whether Solr returns a field as one value or as a list is storage behaviour of the engine, and the collection setup is test plumbing. Only the flattened documents are modelled.
- The `HttpSolrClient` construction with its connection and socket timeouts (SolrConfig.java:130-133) is library set-up and is left out.
- SearchService.java and McpIntegrationTest.java are not part of this model. The first is a thin wrapper over Solr query types; the second is Spring wiring.
- Concurrency between indexing calls is not modelled. The model is one sequential call.
