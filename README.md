# AgentOps-Mock: a Dafny model of its retrieval pipeline, chat router and mock stores

AgentOps-Mock is a demonstration agent. It has four parts:
- a retrieval pipeline that chunks markdown documents, embeds the chunks, upserts them into a Vertex AI Matching Engine index and writes a catalog that joins vector ids to their text;
- a query path that joins the nearest neighbours of a query against that catalog;
- a `/chat` endpoint that routes a natural-language query by keyword to a tasks service, a claims service or retrieval;
- two in-memory mock services: a tasks table and a claims table.

This project models that core in Dafny and proves properties of the model. The modules follow the source files:

| module | file | what it models |
|---|---|---|
| `Chunk` | `chunk.dfy` | `chunk_text`, the word-window chunker with overlap. `ChunkText` is the `while` loop and is proved against the specification function `Chunks`. |
| `Catalog` | `catalog.dfy` | Two shapes of the catalog file. One is the JSON object keyed by id that `run_upsert` writes. The other is the JSON array that `_load_catalog` reads, keyed by each entry's `"id"`. |
| `Search` | `search.dfy` | The join loop of `search_topk`: neighbours against the loaded catalog, with null metadata for a missing id. Also the order of its failures. |
| `VectorRegistry` | `registry.dfy` | The Matching Engine state as a class: indexes, endpoints with their deployments, and stored datapoints. Also `_ensure_index` and `_ensure_endpoint`, each with a specification function. |
| `Embedding` | `embed.dfy` | `_embed_texts`: batches of 16, with the model as an uninterpreted function. |
| `Upsert` | `upsert.dfy` | `run_upsert`: record building, the "no docs/chunks" exit, the zip into datapoints, the upsert and the catalog. |
| `Chat` | `chat.dfy` | `chat` as a pure function from the query to the call it makes. Also the payload to POST/GET choice of `_tasks` and `_claims`. |
| `Tasks` | `tasks.dfy` | The tasks MCP table as a class with a map field: seed, `_new_id`, `list_tasks`, `add_task`, `complete_task`. Also the service's routes. |
| `Claims` | `claims.dfy` | The claims mock table as a class: seed, the `_gen_id` shape, `get_claim`, `create_fnol`. |
| `Text` | `text.dfy` | The Python string operations the core relies on: `split()`, `" ".join`, `lower`, `find`/`rfind`, `strip`, `int()`, `%04d`. |
| `Collections` | `collections.dfy` | The dict comprehension `{key(x): val(x) for x in xs}` and the first-match scan. |
| `Wrappers`, `Http` | `wrappers.dfy`, `http.dfy` | Option/Result; HTTP methods and error replies. |

External services and the seams to them:
- Each external service is a parameter or registry state:
  - the embedding model is a function from a batch of texts to vectors;
  - `find_neighbors` is a function from an endpoint to neighbours;
  - fresh resource names, uuids and the random claim digits are supplied as inputs.
- Vectors and distances are opaque type parameters.
- Files enter as already-parsed values:
  - the catalog file is an optional parsed JSON value;
  - the documents are a sequence of (title, text).

Behaviour of the code that the model keeps:
- On a deployment-id conflict, `_ensure_endpoint` does not retry with a suffixed id. It always deploys under `"agentops_deployed"` (`VectorRegistry.EnsureEndpointConflict`).
- The index and endpoint are ensured before the documents are loaded and embedded.
- The index dimension is the configured 3072 and is not discovered from a vector.
- The catalog written is the object form. The reader expects the array form; see Findings.

## Model

| member | source | states |
|---|---|---|
| `Text.Lower` | app/main.py:40 | The lower-cased query has the same length, and each character is that character lower-cased (ASCII letters). |
| `Text.NoWordsIffAllSpace` | app/retriever/chunk.py:16-18 | `split()` yields no token exactly when every character is whitespace. |
| `Text.WordsOfJoin` | app/retriever/chunk.py:24 | Tokens joined by single spaces split back into the same tokens. |
| `Text.FindSpec` | app/main.py:45 | `split(sep, 1)` cuts at an occurrence of sep with none before it, and there is no cut only when sep occurs nowhere. |
| `Text.FindLastSpec` | app/main.py:47 | `rsplit(sep, 1)` cuts at an occurrence with none after it, and there is no cut only when sep occurs nowhere. |
| `Text.ContainsIffFindLast` | app/main.py:46-47 | `" due " in parts` holds exactly when `rsplit` finds a place to cut. |
| `Text.TrimLeftSpec` | app/main.py:45 | Stripping the front leaves a suffix of the text, and every character dropped is whitespace. |
| `Text.TrimRightSpec` | app/main.py:45 | Stripping the back leaves a prefix of the text, and every character dropped is whitespace. |
| `Text.Strip` | app/main.py:50 | The result neither starts nor ends with whitespace. |
| `Text.StripStripped` | app/main.py:50 | Stripping an already stripped string changes nothing. |
| `Text.ParseIntOfIntToString` | app/main.py:63 | `int()` reads back every decimal integer of at most 4300 digits, negative ones included, and raises ValueError on longer ones (CPython's default `int_max_str_digits`). |
| `Text.ZeroPad4` | app/mcp/tasks_mcp.py:21 | `%04d` gives at least four decimal digits whose value is n. |
| `Text.ZeroPad4Width` | app/mcp/tasks_mcp.py:21 | Below 10000 the padded form has exactly four digits. |
| `Collections.IndexBy` | app/retriever/search.py:20 | The comprehension's keys are exactly the keys of the elements. On a repeated key the last element with that key wins. |
| `Collections.IndexByDistinct` | app/retriever/upsert_vector.py:126 | With pairwise distinct keys every element is found under its own key. |
| `Collections.FirstWith` | app/retriever/upsert_vector.py:29-31 | The scan returns a match with no match before it, or reports that nothing matches. |
| `Collections.FirstWithAt` | app/retriever/upsert_vector.py:51-54 | The scan stops at the first match, whatever follows it. |
| `Chunk.Step` | app/retriever/chunk.py:21 | The step is at least 1 whatever size and overlap are. |
| `Chunk.ChunkText` | app/retriever/chunk.py:14-28 | The loop with its early break terminates and returns exactly `Chunks(text, size, overlap)`. |
| `Chunk.ChunkWords` | app/retriever/chunk.py:19-27 | Over a non-empty token list, the loop with its early break returns exactly `ChunksOf(words, size, overlap)`: one chunk per window, in window order. |
| `Chunk.WindowsFromAt` | app/retriever/chunk.py:21-27 | Window k starts k steps on and ends size tokens later, clamped to n. Another window follows exactly when this one stops short of n and the next start is below n. |
| `Chunk.WindowsFromBounds` | app/retriever/chunk.py:22-23 | Every window is a non-empty token range ending at or before n. |
| `Chunk.LastWindowEnds` | app/retriever/chunk.py:23-26 | With step at most size, the last window ends at the last token. |
| `Chunk.WindowsFromCover` | app/retriever/chunk.py:21-27 | With step at most size, every token lies in some window. |
| `Chunk.ChunkOfWindow` | app/retriever/chunk.py:24 | A chunk splits back into exactly the tokens of its window. |
| `Chunk.NoChunksIffBlank` | app/retriever/chunk.py:16-18 | The result is empty exactly when the text is whitespace only. |
| `Chunk.ChunkOfWordsAt` | app/retriever/chunk.py:22-24 | Chunk k of a token sequence joins tokens `[k*step, min(n, k*step+size))` and splits back into them. |
| `Chunk.RenderedWindow` | app/retriever/chunk.py:24 | A window a < b <= n renders to the join of tokens [a, b), which splits back into those tokens. |
| `Chunk.ChunkAt` | app/retriever/chunk.py:22-27 | Chunk k joins tokens `[k*step, min(n, k*step+size))`, so it holds between 1 and size tokens. |
| `Chunk.LastChunkEndsAtLastToken` | app/retriever/chunk.py:23-26 | With overlap >= 0, the last chunk's last token is the document's last token. |
| `Chunk.ChunksCoverEveryToken` | app/retriever/chunk.py:21-27 | With overlap >= 0, every token index lies in the token range of some chunk. |
| `Chunk.ConsecutiveChunksOverlap` | app/retriever/chunk.py:21-27 | With 0 <= overlap < size, every chunk but the last is full. The next chunk starts overlap tokens before that chunk ends. |
| `Chunk.ShortWordsAreOneChunk` | app/retriever/chunk.py:22-26 | n <= size tokens form one chunk: all of them joined by single spaces. |
| `Chunk.ShortTextIsOneChunk` | app/retriever/chunk.py:22-26 | A text of at most size tokens gives exactly one chunk, its tokens joined by single spaces. |
| `Chunk.ExampleShortText` | app/retriever/chunk.py:22-26 | `"a b c"` with size 10 and overlap 2 gives `["a b c"]`. |
| `Chunk.ExampleTwoChunks` | app/retriever/chunk.py:21-27 | `"alpha beta gamma delta"` with size 2 and overlap 0 gives `["alpha beta", "gamma delta"]`. |
| `Catalog.WrittenCatalogKeys` | app/retriever/upsert_vector.py:126 | The keys of the written object are exactly the record ids. |
| `Catalog.WrittenCatalogEntries` | app/retriever/upsert_vector.py:126 | With distinct ids, each record's id holds that record's `{title, chunk_ix, text}`. |
| `Catalog.WrittenCatalogValuesAreObjects` | app/retriever/upsert_vector.py:126 | Every value of the written object is a JSON object. |
| `Catalog.FirstEntryError` | app/retriever/search.py:20 | The comprehension raises exactly when some element is not an object with a hashable `"id"`. |
| `Catalog.LoadedArrayTable` | app/retriever/search.py:18-20 | Loading an array succeeds exactly when every element is an object with a hashable `"id"`. The table's keys are then exactly those ids, each mapped to its entry, the later entry winning on a repeated id. |
| `Catalog.WrittenCatalogIsUnreadable` | app/retriever/search.py:20 | `_load_catalog` raises TypeError on every non-empty catalog that `run_upsert` writes. |
| `Catalog.KeyedByName` | app/retriever/search.py:20 | The corrected reader's table holds exactly the object's keys, as JSON strings, each mapped to that key's entry. |
| `Catalog.WrittenCatalogLoads` | app/retriever/search.py:18-20 | The corrected reader accepts every catalog `run_upsert` writes. |
| `Catalog.WrittenCatalogIds` | app/retriever/search.py:20 | The ids the corrected reader returns are exactly the record ids. |
| `Catalog.WrittenCatalogRoundTrip` | app/retriever/upsert_vector.py:126 | Under the corrected reader, every record's id reads back with that record's title, chunk_ix and text, and no other id appears. |
| `Search.JoinNeighbors` | app/retriever/search.py:33-44 | Results are as many as the neighbours and in their order, without re-sorting or dedup. Each copies its neighbour's id and distance. A missing id gives null title, chunk_ix and text; a present id gives that entry's fields. |
| `Search.SearchTopK` | app/retriever/search.py:23-44 | With no endpoint the call fails first. An unreadable catalog fails with the loader's error. Otherwise the result is the join of the first endpoint's neighbours with the loaded table. |
| `Search.JoinOverWrittenCatalog` | app/retriever/search.py:36-42 | Under the corrected reader, a neighbour that is an upserted record gets that record's title, chunk index and text. |
| `VectorRegistry.EnsureIndexReusesFirstMatch` | app/retriever/upsert_vector.py:29-31 | The first index named `agentops-mock-index` is returned and nothing is created. |
| `VectorRegistry.EnsureIndexCreatesOne` | app/retriever/upsert_vector.py:34-44 | With no match, exactly one index is appended, with the Tree-AH parameters of the code, and its name is returned. |
| `VectorRegistry.EnsureIndexIdempotent` | app/retriever/upsert_vector.py:24-44 | A second call returns the same resource name and changes nothing. |
| `VectorRegistry.ChooseEndpointChoice` | app/retriever/upsert_vector.py:51-62 | The endpoint chosen is the first one named `agentops-mock-endpoint` and the list is unchanged when there is one. Only when there is none is one public endpoint with no deployments appended and chosen. |
| `VectorRegistry.EnsureEndpointCreatesAndDeploys` | app/retriever/upsert_vector.py:55-68 | With no endpoint of that name, exactly one public endpoint is created, the index is deployed on it once under `agentops_deployed`, and its name is returned. |
| `VectorRegistry.EnsureEndpointDeploysOnReused` | app/retriever/upsert_vector.py:64-68 | On the reused endpoint, an index not yet deployed there is deployed once under `agentops_deployed`, and nothing else changes. |
| `VectorRegistry.EnsureEndpointUsesFirstMatch` | app/retriever/upsert_vector.py:51-54 | The first endpoint named `agentops-mock-endpoint` is used and returned. Every other endpoint is unchanged and none is created. |
| `VectorRegistry.EnsureEndpointAlreadyDeployed` | app/retriever/upsert_vector.py:65-66 | An index already deployed on that endpoint is not deployed again, and nothing changes. |
| `VectorRegistry.EnsureEndpointConflict` | app/retriever/upsert_vector.py:65-68 | The deployment id is always `agentops_deployed`, and there is no retry. When that id is taken the call fails and deploys nothing. |
| `VectorRegistry.EnsureEndpointIdempotent` | app/retriever/upsert_vector.py:47-71 | After a successful call, a second call returns the same endpoint and changes nothing, so a re-run never adds a second deployment. |
| `VectorRegistry.Registry.EnsureIndex` | app/retriever/upsert_vector.py:24-44 | The scan loop leaves the index list and returns the name as `EnsureIndexSpec` says. Endpoints and datapoints are untouched. |
| `VectorRegistry.Registry.EnsureEndpoint` | app/retriever/upsert_vector.py:47-71 | The scan, create and deploy steps leave the endpoints and return the result as `EnsureEndpointSpec` says. Indexes and datapoints are untouched. |
| `VectorRegistry.Registry.UpsertDatapoints` | app/retriever/upsert_vector.py:122 | Each datapoint is stored under its id in that index, the later one winning. An unknown index fails and changes nothing. |
| `Embedding.BatchesPartition` | app/retriever/upsert_vector.py:77-79 | The batches concatenate back to the input in order. Each holds 1 to 16 texts, and there are ceil(n/16) of them. |
| `Embedding.BatchOf` | app/retriever/upsert_vector.py:78-79 | Text i is at position i % 16 of batch i / 16, which starts at the multiple of 16 below i. |
| `Embedding.EmbedAllAt` | app/retriever/upsert_vector.py:77-82 | With one vector per input, the output is as long as the input, and vector i is the model's vector for text i within its batch. |
| `Embedding.EmbedAllLength` | app/retriever/upsert_vector.py:77-82 | With one vector per input there are as many vectors as texts. |
| `Embedding.EmbedAllPointwise` | app/retriever/upsert_vector.py:77-82 | When the model embeds each text on its own, batching changes neither order nor content: vector i is f(text i). |
| `Embedding.EmbedTexts` | app/retriever/upsert_vector.py:73-82 | The batch loop returns exactly `EmbedAll` of the texts. |
| `Upsert.RecordsOfIds` | app/retriever/upsert_vector.py:94-102 | There are as many records as chunks in all chunked documents, and record i carries the i-th supplied uuid. |
| `Upsert.RecordIdsDistinct` | app/retriever/upsert_vector.py:98 | Distinct uuids give pairwise distinct record ids. |
| `Upsert.RecordsOfDoc` | app/retriever/upsert_vector.py:94-102 | Records come document by document in load order. Document d's k-th record is its k-th chunk, with chunk_ix k and the document's title, placed after the records of the documents before it. |
| `Upsert.NoRecordsIffBlank` | app/retriever/upsert_vector.py:94-104 | There are no records exactly when every document is whitespace only. |
| `Upsert.Texts` | app/retriever/upsert_vector.py:108 | One text per record, text i being record i's text. |
| `Upsert.AppendDocRecords` | app/retriever/upsert_vector.py:96-102 | The `enumerate` loop appends one record per chunk with chunk_ix = its position. |
| `Upsert.BuildRecords` | app/retriever/upsert_vector.py:93-102 | The nested loop chunks each document with `ChunkText` and returns exactly `RecordsOf(ChunkDocs(docs), ids)`. |
| `Upsert.MakeDatapoints` | app/retriever/upsert_vector.py:112-120 | Datapoint i pairs record i's id with vector i, with no restricts and no crowding tag. The shorter input decides the count, as `zip` does. |
| `Upsert.EnsuredIndexExists` | app/retriever/upsert_vector.py:89-90 | The index `_ensure_index` returns is in the list, so `_ensure_endpoint` never reports it missing. |
| `Upsert.RunUpsert` | app/retriever/upsert_vector.py:85-130 | The index and endpoint are ensured first, even with no records. A conflict raises and writes nothing. With no records the result is `"no docs/chunks"`, and nothing is embedded, upserted or written. Otherwise every record is upserted with its vector, the count is the number of records, and the catalog is the written object. |
| `Upsert.UpsertedIdsAreCatalogKeys` | app/retriever/upsert_vector.py:113-126 | With one vector per record, the upserted ids are exactly the catalog keys, and record i's datapoint holds vector i. |
| `Upsert.UpsertedKeys` | app/retriever/upsert_vector.py:122-126 | The upserted ids are the catalog keys. |
| `Upsert.UpsertedVector` | app/retriever/upsert_vector.py:113-120 | With distinct ids, record i's id holds vector i in the upserted index. |
| `Upsert.DatapointsDistinct` | app/retriever/upsert_vector.py:113-120 | Distinct record ids give distinct datapoint ids. |
| `Upsert.SameIds` | app/retriever/upsert_vector.py:115 | The datapoint ids are the record ids. |
| `Upsert.CatalogKeysAreUpserted` | app/retriever/upsert_vector.py:108-126 | When the model returns one vector per text, each catalog key is upserted with the vector the model gave that record's text. |
| `Chat.KeywordIntent` | app/main.py:41-59 | The "complete task" and "get claim" rules fire only on their prefix. |
| `Chat.LeadingWord` | app/main.py:52 | A query whose lower-case form starts with a keyword has a last token, so `split()[-1]` does not raise. |
| `Chat.RuleIntentCases` | app/main.py:41-59 | Trying the rule table in order (list, add, complete, claims status, get claim, create fnol; the first that fires wins) agrees with chat's chain of tests. |
| `Chat.ChatIntent` | app/main.py:38-66 | The route chat takes is the one its keyword tests select. A query no rule claims goes to search, and only such a query; it goes with the original query text. |
| `Chat.ChatFollowsRules` | app/main.py:40-66 | The route is the first rule of the ordered table that fires on the lower-cased query, and search is the fall-through with the untouched query. |
| `Chat.RoutingIgnoresCase` | app/main.py:40 | Queries equal up to case are claimed by the same rule. |
| `Chat.ChatMethods` | app/main.py:22-34 | A tasks call is a POST exactly when it is "add a task". A claims call is a POST exactly when it is FNOL. |
| `Chat.AddTaskPrefix` | app/main.py:43-45 | "Add a task: " + rest is claimed by the add rule, and the text after the first ':' is " " + rest. |
| `Chat.LastDue` | app/main.py:46-47 | In title + " due " + due with a one-token due, the last " due " is at the end of the title. |
| `Chat.SplitDueOf` | app/main.py:46-50 | A stripped title and a one-token due split back into themselves. |
| `Chat.AddTaskRoundTrip` | app/main.py:43-50 | "Add a task: <title> due <due>" posts exactly that title and due to `add`. |
| `Chat.AddTaskWithoutDue` | app/main.py:43-50 | For "Add a task: <rest>" whose stripped rest has no " due ", the title posted is the stripped rest and the due date is "". |
| `Chat.ThreeWords` | app/main.py:52 | Three tokens separated by single spaces split into exactly those three. |
| `Chat.CompleteTaskRoute` | app/main.py:51-53 | "Complete task <id>" calls `complete/<id>` with no payload, taking the id in its original case. |
| `Chat.GetClaimHasNoStatus` | app/main.py:54-56 | A "Get claim <id>" query with a one-token id never holds "claims service status", so the earlier status rule never claims it. |
| `Chat.GetClaimRoute` | app/main.py:54-58 | For every one-token id, "Get claim <id>" calls `claim/<id>` with GET and no payload, taking the id in its original case. |
| `Chat.NoDocInCount` | app/main.py:63 | A decimal count contains no "doc". |
| `Chat.DocCountOf` | app/main.py:63 | `int(rest.split("doc")[0].strip())` reads n back from " n docs" when n has at most 4300 digits, and fails otherwise. |
| `Chat.FnolFieldsOf` | app/main.py:62-63 | When r has no "with", `r with c` gives back the stripped r and c's count, or the count error when c holds no integer. |
| `Chat.FnolRestFields` | app/main.py:61-63 | The stripped tail " r with n docs" gives back (r, n), or the count error when n has more than 4300 digits. |
| `Chat.FnolArgsOf` | app/main.py:61-63 | A lower-cased query with "external ref" at 16 followed by " r with n docs" gives (r, n), or the count error when n has more than 4300 digits. |
| `Chat.FnolQueryParsed` | app/main.py:59-63 | The lower-cased canonical FNOL query is claimed by the FNOL rule, and it parses to the lower-cased ref and n, or to the count error when n has more than 4300 digits. |
| `Chat.FnolRoundTrip` | app/main.py:59-64 | "Create FNOL for external ref <ref> with <n> docs" posts `{external_ref: lower(ref), docs: n}` to `fnol`. The ref comes from the lower-cased query. When n has more than 4300 digits, `int()` raises and nothing is called. |
| `Chat.FnolWithoutWith` | app/main.py:61-62 | Every FNOL query whose stripped text after the first "external ref" has no "with" fails with the unpacking error and calls nothing. |
| `Chat.FnolBadCount` | app/main.py:61-63 | Every FNOL query whose count, the stripped text between that "with" and the next "doc", is not an integer fails with the `int()` error and calls nothing. |
| `Chat.FnolWithoutRef` | app/main.py:59-61 | Every FNOL query without "external ref" in its lower-case form fails with the index error and calls nothing. |
| `Chat.CompleteTaskIsRefused` | app/main.py:51-53 | As written, the complete call is a GET to a POST-only route: the tasks service answers 405. |
| `Chat.TasksCallsAreHandled` | app/main.py:18-26 | Choosing POST for a payload or a completion, each tasks call chat makes reaches its handler: list, add, or complete with the id. |
| `Chat.CompleteTaskIsHandled` | app/main.py:51-53 | With the corrected method choice, "Complete task <id>" reaches complete_task with that id. |
| `Tasks.NewIdShape` | app/mcp/tasks_mcp.py:20-21 | A new id is "T-" followed by the decimal digits of size+1, six characters while the size is below 9999. |
| `Tasks.NewIdInjective` | app/mcp/tasks_mcp.py:20-21 | Different table sizes give different ids. |
| `Tasks.AddGrowsIffNew` | app/mcp/tasks_mcp.py:29-34 | add_task stores and returns `{id, title, due, "open"}` under the new id, and leaves every other id as it was. The table grows by one exactly when that id was free. |
| `Tasks.AddOverwritesSeededId` | app/mcp/tasks_mcp.py:20-33 | The id comes from the size, not from the ids in use. A single seeded "T-0002" is overwritten by the next add, and again by every add after it. |
| `Tasks.CompleteChangesOnlyThatTask` | app/mcp/tasks_mcp.py:37-42 | An unknown id is a 404. Otherwise only that task changes, with status "done", and the key set is unchanged. |
| `Tasks.CompleteIdempotent` | app/mcp/tasks_mcp.py:41-42 | Completing twice is completing once. |
| `Tasks.TaskStore.constructor` | app/mcp/tasks_mcp.py:11-12 | The seeded table is keyed by each task's id, the later one winning. |
| `Tasks.TaskStore.Put` | app/mcp/tasks_mcp.py:33 | The task is stored under its id, and a new id is appended to the insertion order. |
| `Tasks.TaskStore.ListTasks` | app/mcp/tasks_mcp.py:24-26 | The table's values, one per key, in insertion order. |
| `Tasks.TaskStore.AddTask` | app/mcp/tasks_mcp.py:29-34 | The new table and returned task are as `AddSpec` says. |
| `Tasks.TaskStore.CompleteTask` | app/mcp/tasks_mcp.py:37-42 | An unknown id returns the 404 and leaves the table unchanged. Otherwise the table becomes `CompleteSpec`'s and the completed task is returned. |
| `Claims.GenIdShape` | mocks/claims_api/main.py:21-26 | A generated id is 2 digits, '-', 2 digits, '-', 6 digits (12 characters), and its groups are the digits drawn. |
| `Claims.ClaimIdIsGenerated` | mocks/claims_api/main.py:21-26 | Every string of that shape is generated from its own three groups. |
| `Claims.SeedIdIsClaimId` | mocks/claims_api/main.py:11-13 | The seeded claim's id has the generated shape. |
| `Claims.SeedTable` | mocks/claims_api/main.py:11-13 | The initial table holds exactly claim "25-44-069049", with status OPEN. |
| `Claims.GetSpec` | mocks/claims_api/main.py:34-38 | A lookup succeeds exactly for a stored id and returns it unchanged. Otherwise it is 404 "Not found". |
| `Claims.FnolThenGet` | mocks/claims_api/main.py:41-45 | After create_fnol, get_claim of the new id returns `{id, OPEN, external_ref, docs}`, and every other id reads as before. |
| `Claims.FnolDocsDefault` | mocks/claims_api/main.py:16-18 | `docs` defaults to 0. |
| `Claims.ClaimStore.constructor` | mocks/claims_api/main.py:11-13 | The store starts as the seeded table. |
| `Claims.ClaimStore.GetClaim` | mocks/claims_api/main.py:34-38 | Returns exactly `GetSpec` of the current table and changes nothing. |
| `Claims.ClaimStore.CreateFnol` | mocks/claims_api/main.py:41-45 | Stores and returns the open claim under the generated id. Every other entry is unchanged. |

## Left out

- `load_docs` (directory glob and file reads), the catalog file write, JSON text encoding and decoding: file I/O. Documents arrive as (title, text) values and the catalog as a parsed JSON value.
- `vertexai.init`, `from_pretrained`, `get_embeddings`, `create_tree_ah_index`, `wait`, `deploy_index`, `upsert_datapoints`, `find_neighbors`, `MatchingEngineIndexEndpoint.list`: foreign services. They are uninterpreted functions or explicit registry state; the failures modelled are the missing index and the deployment-id conflict.
- `time.sleep(15)` after deployment, and the claims `/status` endpoint's `time.time()`: timing and clock.
- Embedding of the query string in `search_topk`: the neighbours are a function of the endpoint and `top_k`, and `top_k` is passed through unexamined.
- Float vector contents and distances: opaque type parameters. Nothing is claimed about similarity.
- The HTTP transport of `_tasks` and `_claims` (requests, timeouts, the 500 when a base URL is unset) and all of app/mcp/claims_mcp.py, a pure HTTP proxy. A chat route is the call it would make, not its response.
- FastAPI and pydantic wiring and environment configuration: the configured names and chunk defaults are constants.
- `uuid.uuid4` and `random.choices`: their values are inputs. `RunUpsert` takes a supplied id sequence and `CreateFnol` takes a supplied id of the claim-id shape.
- Booleans and floats in JSON values, and tasks fields other than id, title, due and status.
- Text.Lower: maps only ASCII letters, not Python's full Unicode case mapping.
- Text.ParseInt: accepts ASCII digits with optional sign, single underscores between digits and surrounding whitespace, at most 4300 digits (CPython's default limit); Unicode digits, and a limit changed through `sys.set_int_max_str_digits` or `PYTHONINTMAXSTRDIGITS`, are not modelled.
- Chat.AddTaskRoundTrip: stated for a stripped, non-empty title and a one-token due; other inputs are covered by the function `Chat.Chat` itself.
- Chat.FnolRoundTrip: stated for the canonical query form, a ref whose lower-case form is stripped and has no "with", and a query without "claims service status" (which would win first).
- Search.SearchTopK: uses the reader as written, so on a catalog that `run_upsert` wrote it fails. The corrected reader is used by `Search.JoinOverWrittenCatalog`.
- Concurrency: concurrent upsert runs and concurrent requests to the mock services are not modelled; every operation is one atomic step.

## Findings

| source | as written | input that shows it | evidently intended | confidence | as-written member | corrected member |
|---|---|---|---|---|---|---|
| app/retriever/search.py:20 | `_load_catalog` keys a JSON array of entries by `c["id"]`, but `run_upsert` writes a JSON object keyed by id whose values hold no `"id"` (app/retriever/upsert_vector.py:126) | any run with one record, id "a": the file is `{"a": {...}}`; iterating it yields the key "a", and `"a"["id"]` raises TypeError | the reader accepts the written object, so every upserted id reads back with its title, chunk_ix and text | not executed | `Catalog.WrittenCatalogIsUnreadable` | `Catalog.WrittenCatalogRoundTrip` |
| app/main.py:51-53 | "complete task" calls `_tasks` without a payload, so a GET is sent, while the tasks service registers `/complete/{task_id}` for POST only (app/mcp/tasks_mcp.py:37) | "Complete task T-0001" sends GET `complete/T-0001`, which FastAPI answers with 405 | the completion is sent as a POST and reaches `complete_task` | not executed | `Chat.CompleteTaskIsRefused` | `Chat.CompleteTaskIsHandled` |
