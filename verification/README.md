# dhasar data-access core in Dafny

`dhasar` is a Go toolkit for building HTTP services. This project models its
data-access layer and proves properties of the model. The layer consists of:

- a Redis read-through cache decorator over a repository, and the Redis
  manager that derives its cache keys;
- the generic relational repository in its three copies:
  `common/repository/postgres`, `repository/postgres` and the root package's
  SQLite repository. Each has Get, Exist, List, Size, Delete, Save, a row
  iterator and the upsert clause; the first also checks the schema when it
  is constructed;
- the transaction coordinator, which begins a transaction, runs a body, then
  commits or rolls back;
- the SQL database manager, which routes a query to the pool or to the
  ambient transaction and applies Limit/Offset specifications to a SELECT;
- the pagination parameters (uint32 arithmetic with defaults and
  wrap-around), the sort query-parameter parser and the string-keyed
  dependency container.

The repository keeps several generations of the same code: the root package,
`manager/...` and `common/...`. Each component is modelled once and the
copies are parameters of the model. The three `TxKey{}` types are the
`DatabaseManager.TxKey` values. Construction with or without a schema check
is `Relational.NewChecked` or `Relational.NewUnchecked`.

Modelling choices:

- Go's `(T, error)` is `Base.Ret`. Its value is kept on error, because several
  operations return a real value next to an error. A nil slice is `None`.
- MD5, JSON marshalling and parsing, the decorator's `Encode`/`Decode` and the
  fallback repository are function parameters with no interpretation.
- The answer of the database to a statement is a function of the handle the
  statement runs on. A query answer is the sequence of per-row scan outcomes
  followed by what `rows.Err()` reports.
- Redis is a map from keys to bytes plus, for each of GET, SET and DEL, an
  optional error the command fails with. A decorator call returns the new
  map and whether it reached the fallback.
- The external `exists` package is not part of this model. `exists.Number`
  is read as "not zero" (`Pagination.Given`) and `exists.String` as "not the
  empty string" (`SortParams.ParseFromContext`). If `exists.String` also
  rejected blank strings, `sort=" "` would be a no-op in Go, while the model
  parses it and fails with ErrInvalidSortParams.

Files:

| file | module |
|---|---|
| base.dfy | `Base`: Option, Result, Ret, errors |
| strings.dfy | `Strings`: Split, Join, RemoveAll (`strings.ReplaceAll` with an empty replacement) |
| uint32.dfy | `Uint32`: wrap-around arithmetic |
| specification.dfy | `Specification`: Limit/Offset/Sort values, ListArgs |
| pagination.dfy | `Pagination` |
| sort_params.dfy | `SortParams` |
| container.dfy | `Container` |
| database_manager.dfy | `DatabaseManager`: contexts, routing, Paginate |
| transaction.dfy | `Transaction` |
| relational.dfy | `Relational` |
| redis_manager.dfy | `RedisManager` |
| redis_repository.dfy | `RedisRepository` |

## Model

| member | source | states |
|---|---|---|
| Pagination.Normalize | pagination_params.go:14-24 | a zero page becomes 1 and a zero page size becomes 10; non-zero values are kept; both fields are non-zero afterwards |
| Pagination.NormalizeIdempotent | pagination_params.go:14-24 | normalizing twice gives the same parameters as normalizing once |
| Pagination.Limit | pagination_params.go:26-28 | a page holds exactly the page size in rows |
| Pagination.NormalizedLimitIsPositive | pagination_params.go:14-28 | after normalizing, a page always holds at least one row |
| Pagination.Offset | pagination_params.go:30-32 | for every page from 1 the offset is `pageSize * (page - 1)` modulo 2^32, which is the plain product when it fits and 0 for page 1; page 0 wraps to `2^32 - pageSize` modulo 2^32 |
| Pagination.LargePagesWrapAround | pagination_params.go:30-32 | page 3 of 2^31 rows wraps back to offset 0, the offset of page 1 |
| Pagination.WrapBelowZero | pagination_params.go:30-32 | multiplying by the uint32 wrap of `0 - 1` negates modulo 2^32 |
| Pagination.PagesAreAdjacent | pagination_params.go:26-32 | while offsets fit in 32 bits, page n + 1 starts exactly where page n ends (its offset plus the limit) |
| Pagination.NewPaginationParams | pagination_params.go:34-46 | the constructor as written: page size always 0; page 10 when the size is absent, 1 when only the page is absent, 0 otherwise |
| Pagination.NewPaginationParamsDropsArguments | pagination_params.go:34-46 | page 3 of size 20 comes back as page 0 of size 0, with limit 0 |
| Pagination.NewPaginationParamsIntended | pagination_params.go:34-46 | given values are kept and absent ones get the defaults 1 and 10 |
| Pagination.IntendedIsNormalize | pagination_params.go:14-46 | the intended constructor equals normalizing the raw arguments |
| Pagination.NewPaginationResult | pagination_params.go:55-62 | size, page and page size are copied; the page count is the least number of pages that holds `size` rows, and it is 0 exactly when size is 0 |
| Pagination.CeilDiv | pagination_params.go:60 | the quotient times the divisor covers `n`, one page fewer does not, and the quotient never exceeds `n` |
| SortParams.ColumnAllowed | sort_params.go:21-29 | true exactly when the column is in the whitelist |
| SortParams.Direction | sort_params.go:39-42 | descending exactly when the candidate starts with `-`; a leading `+` or no sign means ascending |
| SortParams.ColumnStripsSigns | sort_params.go:44-46 | the column has no `-` or `+` anywhere, and keeps every other character of the candidate |
| SortParams.UnsignedCandidateNamesItself | sort_params.go:39-46 | a candidate without signs names itself and sorts ascending |
| SortParams.Arguments | sort_params.go:52-55 | one argument per candidate, in candidate order |
| SortParams.ParsedIsDeterministic | sort_params.go:37-58 | the parse specification admits exactly one outcome |
| SortParams.ParseCandidate | sort_params.go:39-50 | one loop step: the argument of the candidate, and whether its column is in the whitelist |
| SortParams.ParseCandidates | sort_params.go:37-58 | the existing arguments are extended by those of the leading allowed candidates; success exactly when all candidates pass; otherwise the first rejected candidate stops the parse with ErrInvalidSortParams, keeping earlier arguments |
| SortParams.ParseFromContext | sort_params.go:31-59 | an empty `sort` changes nothing and succeeds; otherwise the comma-separated candidates are parsed as above onto the existing arguments, so repeated calls accumulate |
| Strings.Split | sort_params.go:37 | at least one piece, no piece holds the separator, and the pieces join back to the input |
| Strings.SplitJoin | sort_params.go:37 | splitting a join of separator-free pieces gives the pieces back |
| Strings.RemoveAll | sort_params.go:44-45 | the deleted character is gone, every other character is kept, and the length does not grow |
| Strings.RemoveAllAppend | sort_params.go:44-45 | deleting a character distributes over concatenation, so the remaining characters keep their order |
| Container.NewContainer | container.go:13-17 | the new registry holds no name |
| Container.Register | container.go:19-23 | the name is bound to the dependency, replacing an earlier binding; no other binding changes |
| Container.Resolve | container.go:25-33 | no error exactly when the name is registered, with its value; otherwise nil and `dependency <name> not found` |
| Container.ResolveAfterRegister | container.go:19-33 | resolving a name right after registering it gives the registered value and no error |
| Container.RegisterIsolated | container.go:19-33 | registering one name does not change what another name resolves to |
| Container.Get | container.go:35-47 | a value exactly when the name is registered and its value has the asked type; otherwise a panic with `<name> is not resolved.` |
| DatabaseManager.Querier | sql_database_manager.go:61-87 | the transaction stored under the key when there is one; the pool when nothing is stored or the value has another type |
| DatabaseManager.Dispatch | manager/database/sql/sql_database_manager.go:26-38 | a statement's answer is the routed handle's answer, unchanged |
| DatabaseManager.Paginate | common/manager/database/database_manager.go:50-61 | columns, table and filters are never changed |
| DatabaseManager.PaginateKeepsLimit | sql_database_manager.go:48-59 | without a Limit specification the limit stays as it was |
| DatabaseManager.PaginateLastLimit | sql_database_manager.go:48-59 | the last Limit specification decides the limit |
| DatabaseManager.PaginateLimit | manager/database/sql/sql_database_manager.go:50-61 | the limit is the value of the last Limit specification, or unchanged when there is none |
| DatabaseManager.PaginateKeepsOffset | sql_database_manager.go:48-59 | without an Offset specification the offset stays as it was |
| DatabaseManager.PaginateLastOffset | sql_database_manager.go:48-59 | the last Offset specification decides the offset |
| DatabaseManager.PaginateOffset | common/manager/database/database_manager.go:50-61 | the offset is the value of the last Offset specification, or unchanged when there is none |
| DatabaseManager.PaginateWithoutPagingIsIdentity | sql_database_manager.go:48-59 | with no Limit or Offset specification the builder comes back unchanged |
| Transaction.Execute | trxman.go:21-46 | a failed begin is returned and the body never runs; the body sees the new transaction under the manager's key; a failed body is rolled back and the rollback error, if any, replaces the body's; a successful body is committed and the commit error returned; a body that panics leaves Execute with the transaction begun and neither committed nor rolled back, since nothing recovers the panic; for a body that returns, exactly one of commit or rollback follows a begin; no error exactly when begin, body and commit succeed |
| Transaction.BodyRoutesToNewTransaction | manager/transaction/transaction_manager.go:20-45 | inside the body a manager reading the same key routes to the new transaction; one reading another key routes as before |
| Transaction.NoNestingDetection | trxman.go:21-22 | every call begins afresh, whatever the caller's context holds; two callers whose bodies answer alike get the same error, the same panic and the same final state |
| RedisManager.DigitValue | redisdbman.go:35-36 | a recognised digit is one that hex encoding produces for its value |
| RedisManager.Hex | redisdbman.go:35-36 | two lowercase hex digits per byte, high nibble first |
| RedisManager.UnhexHex | redisdbman.go:35-36 | decoding the hex rendering gives the bytes back |
| RedisManager.HexInjective | redisdbman.go:35-36 | distinct digests never share a key |
| RedisManager.Key | redisdbman.go:29-39 | a marshalling error gives the empty key and that error; otherwise 32 lowercase hex characters that decode to the MD5 of `prefix + "/" + JSON` |
| RedisManager.KeysAgreeIffDigestsAgree | manager/database/redis/redis_database_manager.go:29-39 | two keys are equal exactly when the digests of their hash inputs are equal |
| RedisManager.HashInputInjective | redisdbman.go:29-39 | with slash-free prefixes, different prefixes or different JSON give different hash inputs |
| RedisManager.Get | redisdbman.go:41-50 | a failing GET gives nil and its error; an absent key gives nil and no error; otherwise the stored bytes |
| RedisManager.Set | redisdbman.go:52-59 | a marshalling error or a failing SET is returned and nothing is written; otherwise only the key changes, to the value's JSON |
| RedisManager.Delete | manager/database/redis/redis_database_manager.go:25-27 | a failing DEL is returned and nothing changes; otherwise the key is gone and every other key is unchanged |
| RedisManager.GetAfterSet | redisdbman.go:41-59 | a successful SET reads back as the value's JSON; other keys read as before |
| RedisManager.GetAfterDelete | redisdbman.go:25-50 | a deleted key reads as absent; other keys read as before |
| RedisRepository.GetKey | redis_repository.go:35-37 | a marshalling error gives the empty key and that error; otherwise a 32-character key that decodes to the MD5 of `<key>.<action>/<JSON>` |
| RedisRepository.Classify | redis_repository.go:103-154 | a lookup is a hit exactly when a key was made, the GET worked, the key was present and its entry parsed |
| RedisRepository.ReadThrough | redis_repository.go:103-154 | with no key or a failed GET, exactly the fallback's answer and no write; a clean hit never reaches the fallback; a miss or bad entry returns a fallback error with no write, and otherwise writes the fetched value under the same key and returns the write's error |
| RedisRepository.Get | redis_repository.go:103-154 | read-through for Get: a hit answers `Decode` of the cached JSON, including its error; a miss writes `Encode` then JSON and returns encode or SET failures next to the entity |
| RedisRepository.Exist | redis_repository.go:60-101 | read-through for Exist over a cached boolean |
| RedisRepository.Size | redis_repository.go:219-260 | read-through for Size over a cached uint32 count |
| RedisRepository.EncodeAll | redis_repository.go:171-181 | every entity encoded in order, or the first encoding error |
| RedisRepository.DecodeAll | redis_repository.go:197-207 | every cached entity decoded in order, or nothing when one fails |
| RedisRepository.List | redis_repository.go:156-213 | without key or GET, the fallback's answer; on a miss, the fallback's answer with its error, while encoding and SET failures are swallowed; on a hit whose payload or any element fails to decode, the fallback's answer with no rewrite; otherwise the decoded entities in cached order |
| RedisRepository.Delete | redis_repository.go:39-54 | a fallback error is returned with Redis untouched; otherwise no error, only the GET key of the same specifications is evicted, and key or DEL failures are swallowed |
| RedisRepository.Save | redis_repository.go:215-217 | the fallback's answer, with Redis untouched |
| RedisRepository.Each | redis_repository.go:56-58 | the fallback's iterator, with Redis untouched |
| RedisRepository.NewRedisRepository | redis_repository.go:271-280 | the resource is stored, but the key prefix stays empty and the expiration zero |
| RedisRepository.ResourcesShareKeys | redis_repository.go:35-37 | decorators over `users` and `orders` derive the same cache key for the same arguments |
| RedisRepository.NewRedisRepositoryKeyed | redis_repository.go:271-280 | the constructor with the key prefix set to the resource |
| RedisRepository.KeyedResourcesHashApart | redis_repository.go:35-37 | with the resource as prefix, distinct slash-free resources give distinct hash inputs |
| RedisRepository.GetMissThenHit | redis_repository.go:103-154 | a first Get misses and caches; a second Get is a hit that does not reach the fallback and answers the entity when `Decode` inverts `Encode` |
| RedisRepository.ExistMissThenHit | redis_repository.go:60-101 | a first Exist misses and caches; a second answers the cached boolean without the fallback |
| RedisRepository.SizeMissThenHit | redis_repository.go:219-260 | a first Size misses and caches; a second answers the cached count without the fallback |
| RedisRepository.ListMissThenHit | redis_repository.go:156-213 | a first List misses and caches the encoded entities; the second answers them from Redis without the fallback |
| RedisRepository.CacheDownIsTransparent | redis_repository.go:60-226 | with every Redis command failing, Get, Exist, Size and List answer exactly what the fallback answers and Redis is unchanged |
| RedisRepository.UnkeyableSpecificationsAreTransparent | redis_repository.go:104-110 | when no key can be made from the specifications, Get, Exist and Size answer the fallback's answer and Redis is unchanged |
| RedisRepository.UnkeyableListArgumentsAreTransparent | redis_repository.go:157-160 | when no key can be made from the list arguments, List answers the fallback's answer and Redis is unchanged |
| RedisRepository.CorruptGetEntryIsRefreshed | redis_repository.go:111-148 | an unparsable Get entry is replaced by the fallback's entity and the next Get is a hit |
| RedisRepository.CorruptListEntryStays | redis_repository.go:189-212 | an unparsable List entry is never rewritten, so List keeps asking the fallback |
| RedisRepository.DeleteEvictsOnlyGet | redis_repository.go:39-54 | after a successful Delete the Get entry misses while a cached Exist entry for the same specifications is still answered from Redis with the same result |
| RedisRepository.DeleteKeepsSizeEntry | redis_repository.go:39-54 | after a successful Delete a cached Size entry for the same specifications is still answered from Redis with the same result |
| RedisRepository.DeleteKeepsListEntry | redis_repository.go:39-54 | after a successful Delete any cached List entry answers exactly as before, whether from Redis or from the fallback |
| RedisRepository.SaveKeepsStaleEntries | redis_repository.go:215-217 | a Get hit before a Save is the same hit after it |
| Relational.Assignments | common/repository/postgres/repository.go:255-262 | one `c = excluded.c` part per column, in declared order |
| Relational.MakeUpsertSuffix | common/repository/postgres/repository.go:255-262 | the loop yields `ON CONFLICT (pk) DO UPDATE SET ` and the parts joined by `, ` |
| Relational.AssignmentsAppend | repository/postgres/postgres_repository.go:262-269 | the clause of two column lists is the two clauses joined by one `, `, so each column contributes exactly its own part |
| Relational.ListSelect | common/repository/postgres/repository.go:241-253 | the repository's columns and table under the filters; the limit and offset are those of the last Limit and Offset among the Limit and Offset arguments, and absent otherwise; Sort is not applied |
| Relational.FirstRow | common/repository/postgres/repository.go:100-119 | only the first row counts: its entity, the zero entity for no rows, or the zero entity and the scan error |
| Relational.ExistLoop | common/repository/postgres/repository.go:121-149 | the last scanned value decides whether it equals 1; the first failed scan gives false, with no error for `ErrNoRows` |
| Relational.SizeLoop | repository/postgres/postgres_repository.go:200-226 | the last scanned count, or 0 and the first scan error |
| Relational.ListLoop | common/repository/postgres/repository.go:151-168 | every row's entity appended in order, or nil and the first scan error, dropping what was collected |
| Relational.Get | repository/postgres/postgres_repository.go:100-122 | the query is the columns under the filters with limit 1 and no offset; a query error or the first row's scan error gives the zero entity and the error; no row gives the zero entity and no error; otherwise the first row's entity |
| Relational.Exist | sqlite_repository.go:121-151 | selects 1 with limit 1: no row is false; the last value equal to 1 is true; `ErrNoRows` gives false with no error; other errors are returned with false |
| Relational.List | sqlite_repository.go:153-173 | all entities in row order, an empty non-nil list for no rows; nil and the error of the query or the first failed scan |
| Relational.Size | sqlite_repository.go:196-222 | counts `id` under the filters, without limit or offset; the last count, 0 for no rows, `(0, err)` on failure |
| Relational.Delete | repository/postgres/postgres_repository.go:69-84 | the DELETE runs on the transaction the context holds under the repository's key, and on the pool otherwise; only its exec error is returned, so deleting no row is a success |
| Relational.Save | common/repository/postgres/repository.go:170-190 | the upsert of the entity's row over the declared columns with the repository's clause; the exec error is returned |
| Relational.Next | repository/postgres/postgres_repository.go:65-67 | moves onto the next row when there is one; otherwise closes the cursor and reports the end |
| Relational.Current | repository/postgres/postgres_repository.go:56-63 | the entity of the current row or the zero entity and the scan error; reading before the first Next fails; reading after the end fails with the error that ended the iteration, or with "rows are closed" when it ended normally |
| Relational.NextExhausts | sqlite_repository.go:53-64 | once past the last row the cursor stays at the end, and reading fails with the iteration's error or "rows are closed" |
| Relational.Advance | sqlite_repository.go:62-64 | repeated Next keeps the cursor reachable |
| Relational.Each | common/repository/postgres/repository.go:86-98 | a fresh cursor over the rows of List's query, keeping the error that ends the iteration, or nil and the query error |
| Relational.EachReportsIterationError | repository/postgres/postgres_repository.go:56-98 | when a driver error ends Each's iteration, reading after the end returns that error |
| Relational.CollectIsListLoop | common/repository/postgres/repository.go:56-67 | reading a cursor to its end gives what the List loop gives for its remaining rows |
| Relational.FreshCursorIsListLoop | common/repository/postgres/repository.go:56-67 | a cursor opened on an answer and read to its end gives what the List loop gives for all of that answer's rows |
| Relational.EachAgreesWithList | sqlite_repository.go:83-95 | reading Each's cursor to the end yields exactly List's answer for the same arguments |
| Relational.GetIsListOfOne | sqlite_repository.go:97-119 | when the database returns at most one row for LIMIT 1, Get is List with a limit of one: the same error, and List's only entity or the zero entity |
| Relational.ListIgnoresSort | common/repository/postgres/repository.go:151-168 | List and Each do not depend on the Sort argument |
| Relational.CheckRows | common/repository/postgres/repository.go:278-295 | the first row that cannot be scanned, names an undeclared column or has a different type stops the check with the scan error or the schema error (column, catalog type, declared type); otherwise `rows.Err()` |
| Relational.CheckSchema | common/repository/postgres/repository.go:264-296 | the catalog query runs on the pool; its failure is returned; otherwise the catalog rows are checked |
| Relational.CheckIgnoresUnlistedColumns | common/repository/postgres/repository.go:278-289 | two schemas that agree on every listed column give the same verdict |
| Relational.MissingDeclaredColumnPasses | common/repository/postgres/repository.go:278-289 | a table lacking a declared `email` column passes |
| Relational.EmptyCatalogPasses | common/repository/postgres/repository.go:264-296 | an empty catalog passes whatever the schema declares |
| Relational.FirstUnlisted | common/repository/postgres/repository.go:264-296 | the first declared column of the order missing from the catalog; none exactly when all are listed |
| Relational.CheckRowsComplete | common/repository/postgres/repository.go:264-296 | passes exactly when the catalog rows pass and every declared column is listed; a missing column is reported with its declared type |
| Relational.MissingDeclaredColumnFailsWhenComplete | common/repository/postgres/repository.go:264-296 | with the completeness step the table lacking `email` is rejected, naming `email` and `text` |
| Relational.NewChecked | common/repository/postgres/repository.go:218-239 | a failing schema check gives nil and its error; otherwise the repository with the computed upsert clause |
| Relational.NewUnchecked | repository/postgres/postgres_repository.go:228-246 | never fails, stores the schema and computes the upsert clause |

## Left out

- Logging, timing, `context.Context` cancellation and the mutex of the container are not modelled; none of them changes a result.
- Transaction.Execute: a panicking body is modelled up to the panic leaving Execute with the transaction still open; what happens to that transaction afterwards (database/sql rolls it back only when the context passed to `BeginTx` is cancelled) and the panic's value are not modelled.
- SQL text, placeholder formats and drivers are not modelled. A statement is a value and the database's answer is a parameter. So `sqlite_repository.go` building its Save without the Dollar placeholder format, and its `ListArgs.Specifications` field, are not represented.
- The `filter`, `scan` and `values` functions of the repositories are not modelled; rows are scanned by the database answer.
- `rows.Close` is not modelled. The copies differ here: `repository/postgres/postgres_repository.go` (lines 110, 142, 164, 217) and `sqlite_repository.go` (lines 107, 139, 161, 213) defer `rows.Close()` in Get, Exist, List and Size, while `common/repository/postgres/repository.go` never closes its rows there or in the schema check, so a Get that finds its row returns with the cursor and its connection still open. Results are the same in all copies; connection lifetime is outside the model.
- Get, Exist, List and Size never read `rows.Err()`, and the model ignores it there too. The schema check returns it, and Each's cursor reports it through Current once the iteration has ended.
- MD5, JSON, `Encode` and `Decode` are uninterpreted functions. The Redis expiration is not modelled; it is always 0, so entries never expire.
- The context handed to the fallback repository is not modelled; the fallback's answers are functions of the arguments only.
- Pagination.NewPaginationResult: requires a non-zero page size, because the float64 `math.Ceil` of a division by zero is left out.
- HTTP, adapters, module wiring, the reflection-keyed container and the error constants are outside this model.

The model follows the code where the code departs from the documented design:

- RedisRepository.Get returns encoding and SET failures next to the entity instead of swallowing them; Exist and Size do the same.
- RedisRepository.Get returns a `Decode` error on a hit instead of asking the fallback.
- RedisRepository.Delete evicts only the GET key, and Save never invalidates.
- Relational.CheckRows fills the "Expected" slot of its message with the catalog type and the "Found" slot with the declared type, as written.

## Findings

| source | as written | input that shows it | evidently intended | confidence | as-written member | corrected member |
|---|---|---|---|---|---|---|
| pagination_params.go:34-46 | the constructor never stores its arguments and writes the default page size into the page field | page 3, page size 20 gives page 0, page size 0 | keep given values and default absent ones to page 1 and size 10 | not executed | Pagination.NewPaginationParamsDropsArguments | Pagination.IntendedIsNormalize |
| redis_repository.go:271-280 | `Key` is never set, so the cache key prefix is `.<action>` for every resource | repositories over `users` and `orders` asked Get with the same specifications share one cache entry | prefix keys with the resource | not executed | RedisRepository.ResourcesShareKeys | RedisRepository.KeyedResourcesHashApart |
| common/repository/postgres/repository.go:264-296 | the schema check only looks at catalog rows, although its error is about a "missing column" | schema `{id: uuid, email: text}` against a catalog listing only `id uuid` passes | also reject declared columns the catalog lacks | not executed | Relational.MissingDeclaredColumnPasses | Relational.MissingDeclaredColumnFailsWhenComplete |
