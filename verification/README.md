# relevantcache: cascading invalidation on Redis, modelled in Dafny

`relevantcache` is a cache client for a Redis-compatible store. An item can say that it is
*relevant to* other keys. Deleting a key then also deletes every key reachable through
these relevance lists, and a key containing `*` stands for every stored key its SCAN
delivers. This project models the cascading-invalidation core of `redis.go` against an
abstract store and proves what it computes.

- `cache_types.dfy` (`CacheTypes`): keys, byte payloads, the dynamically typed arguments
  of the Go API (`Value`), stored entries, SCAN replies, error kinds, and `Externals`.
  `Externals` holds the collaborators defined outside `redis.go`: `getKey`, `Item.encode`,
  `decodeMeta` together with the split on `keyDelimiter`, and the client library's
  marshalling of raw values.
- `relevance.dfy` (`Relevance`): `factoryRelevantKeys` and `factoryRelevantKeysWithAsterisk`
  as pure functions (`Resolve`, `ResolveAll`, `ScannedKeys`) over a `View`. A `View` is the
  store's entries, the decoder and the SCAN replies for each pattern.
- `closure.dfy` (`Closure`): the result of resolution as reachability in the relevance
  graph, the transitive closure on graphs of bounded depth, and pattern expansion.
- `cascade.dfy` (`Cascade`): the key list of `factoryDeleteKeys` (`CascadeKeys`) and its laws.
- `write_path.dfy` (`WritePath`): `Set`'s argument dispatch and TTL handling, plus the
  payload that `Get` and `MGet` return.
- `redis_cache.dfy` (`RedisCacheModel`): class `RedisCache`. Its state is the store map and
  the log of store-changing commands it has sent. `RelevantKeys`, `RelevantKeysWithAsterisk`
  and `DeleteKeys` are loops proved equal to the functions above. `Del`, `Unlink` and `Set`
  change the store. `Get` and `MGet` read it.

Two kinds of input stand in for things the model does not cover:
- Resolution takes a `depth` (fuel) argument. The source recursion has no bound, and with
  depth 0 nothing is visited. `Closure.ResolveIsClosure` shows that once the depth exceeds
  the depth of the graph below the root, the result is the full closure and does not change
  with more depth.
- Whether the store answers the final command of an operation with an error is the `fails`
  argument.

## Model

| member | source | states |
|---|---|---|
| `Relevance.Resolve` | redis.go:199-224 | every key resolution returns is a literal key (no `*`) that the store holds |
| `Relevance.ResolveAll` | redis.go:217-221 | the concatenated expansions of a relevance list likewise contain only stored literal keys |
| `Relevance.ScannedKeys` | redis.go:231-245 | every key the scan delivers comes from some page reply (not from a failed round trip) |
| `Relevance.ResolveAllAppend` | redis.go:218-221 | expanding a list and concatenating distributes over any split of the list |
| `Relevance.ScannedKeysAfter` | redis.go:231-245 | pages whose cursor is not 0 are all taken, in order, and the scan goes on after them |
| `Relevance.ScanStops` | redis.go:232-243 | a failed SCAN round trip ends the scan and keeps the keys of the earlier pages; the page with cursor 0 is the last one taken |
| `Relevance.ResolveIgnoresPatternEntries` | redis.go:200-203 | the value stored under a key containing `*` is never read: with the SCAN replies kept fixed, changing such entries never changes a resolution |
| `Closure.ResolveMembers` | redis.go:199-224 | a key is in the result exactly when it is a stored literal key on a path from the root within the depth bound |
| `Closure.ResolveStable` | redis.go:196-199 | on a graph whose paths from the root are shorter than n, any depth of at least n gives the same list |
| `Closure.ResolveIsClosure` | redis.go:199-224 | on such a graph, resolution returns exactly the stored literal keys reachable from the root (the transitive closure), and more depth changes nothing |
| `Closure.ChainResolved` | redis.go:212-223 | if A lists B and B lists C and all three are stored, resolving A returns A, B and C |
| `Closure.PatternResolution` | redis.go:227-248 | resolving a pattern returns exactly the stored literal keys reachable from its scanned keys; when the scan only delivers matches, each result is reached from a matching key |
| `Cascade.ArgumentKeys` | redis.go:180-187 | an argument getKey refuses contributes nothing; every key an accepted one contributes is a stored literal key |
| `Cascade.CascadeKeys` | redis.go:176-194 | the cascade's key list contains only stored literal keys |
| `Cascade.CascadeKeysAppend` | redis.go:179-191 | the arguments are handled independently and their expansions concatenated in input order |
| `Cascade.CascadeSkipsInvalid` | redis.go:180-184 | an argument getKey refuses is skipped without affecting the others |
| `Cascade.CascadeMembers` | redis.go:176-194 | a key is in the list exactly when it is in the expansion of some accepted argument |
| `Cascade.CascadeEmpty` | redis.go:153-157 | the list is empty exactly when every accepted argument resolves to nothing |
| `WritePath.Expiry` | redis.go:143-146 | a TTL gives an expiry exactly when it is positive, and that expiry is the TTL in seconds |
| `WritePath.SetPlanAsWritten` | redis.go:121-141 | as written, the dispatch refuses exactly no arguments and a single non-item argument; only the one-item and three-argument forms can set an expiry |
| `WritePath.SetPlan` | redis.go:121-141 | the corrected dispatch accepts only one to three arguments and refuses more with a too-many-arguments error |
| `WritePath.SetDispatch` | redis.go:121-147 | no argument or one non-item argument is an error; one item writes its key, its encoding and the expiry of its TTL; two or three arguments write the key and raw value; a TTL becomes an expiry only when positive, and the two-argument form never expires |
| `WritePath.ExtraArgumentsWriteEmptyKey` | redis.go:121-147 | as written, four or more arguments write the empty key with a nil value and no expiry |
| `WritePath.SetPlanAgreesUpToThree` | redis.go:121-141 | the corrected dispatch agrees with the source for zero to three arguments |
| `WritePath.SetItemThenGet` | redis.go:124-131 | for any item whose payload the codec gives back (relevance list empty or not), reading back a written item gives its payload, the expiry follows its TTL, and every other key keeps its presence and its stored entry |
| `WritePath.SetItemThenResolve` | redis.go:212-223 | after an item is written under a literal key, resolving it gives the key followed by the expansions of the decoded relevance list: the item's own list when it is not empty; for an empty list (decoded as no list, or as the one key `""`), the key alone when `""` is not stored |
| `RedisCacheModel.RedisCache.RelevantKeys` | redis.go:199-224 | the loop computes `Resolve`; an absent literal gives nothing, a stored literal comes first, and one without metadata gives exactly itself |
| `RedisCacheModel.RedisCache.RelevantKeysWithAsterisk` | redis.go:227-248 | the scan loop computes the in-order expansions of the scanned keys |
| `RedisCacheModel.RedisCache.DeleteKeys` | redis.go:176-194 | the loop computes `CascadeKeys` |
| `RedisCacheModel.RedisCache.Del` | redis.go:152-161 | with nothing to delete: success and no command; otherwise exactly one DEL of the whole list, after which the listed keys are gone and all other keys are unchanged (unless the store reports an error, which is returned) |
| `RedisCacheModel.RedisCache.Unlink` | redis.go:165-174 | the same as `Del`, sending one UNLINK |
| `RedisCacheModel.RedisCache.Set` | redis.go:116-148 | a refused call sends nothing; an accepted one sends exactly one SET and stores the value with its expiry |
| `RedisCacheModel.RedisCache.Get` | redis.go:91-103 | an invalid key or a missing entry is an error; otherwise the decoded payload |
| `RedisCacheModel.RedisCache.MGet` | redis.go:250-275 | any invalid key fails before the store is asked; an MGET of no keys is a store error; otherwise the answer has one entry per input, in order: None for a missing key, else that key's decoded payload |
| `RedisCacheModel.CascadeScenario` | redis.go:152-161 | after writing A relevant to B and B (whose empty relevance section decodes to no list, or to the one empty key, which is not stored), deleting A removes exactly A and B, and B then reads as absent |

## Findings

| source | as written | input that shows it | evidently intended | confidence | as-written member | corrected member |
|---|---|---|---|---|---|---|
| redis.go:121-141 | the argument-count switch of `Set` has no default case, so key, value and TTL keep their zero values | `Set("a", "b", 1, 2)` writes the empty key `""` with a nil value and no expiry, and reports success | only one, two or three arguments are accepted (the doc comment at redis.go:110-115 lists those counts); more are refused | high; not executed | `WritePath.ExtraArgumentsWriteEmptyKey` (on `SetPlanAsWritten`) | `WritePath.SetDispatch` (on `SetPlan`, which `RedisCache.Set` uses) |

## Left out

- `NewRedisCache`, `Close`, `Purge`, `Increment`, `Dump`, `HSet`, `HLen`, `HGet` and `Redis()`: connection setup and pass-throughs to the client library with no logic of their own.
- The `debug` calls and the writer they go to: they only observe.
- The definitions of `getKey`, `Item.encode`, `decodeMeta`, `keyDelimiter` and the client library's marshalling of raw values: they live in files that are not part of this model, so they are the function fields of `Externals`. The split of the relevance section on the delimiter is folded into the decoder. A present but empty section splits into the one key `""`; the source then looks up the empty key, which contributes nothing when it is not stored.
- The SCAN cursor protocol and glob matching: a pattern's scan is the sequence of replies to its successive round trips, and matching is the `matches` argument of `Closure.PatternResolution`. A reply sequence that ends without a cursor-0 page is treated as the end of the scan.
- Relevance.Resolve: the source recursion is unbounded and does not terminate on a cyclic relevance graph, or on a stored key containing `*` that its own pattern matches. The model cuts it off at `depth` levels and proves agreement with the unbounded result only on graphs whose depth is below that bound.
- Transport failures of the GETs and SCANs issued during resolution other than the SCAN failures above: a GET during resolution fails exactly when the key is absent.
- Expiry over time, and the `int64` overflow of `time.Duration(ttl) * time.Second` for very large TTLs: an expiry is stored as a number of seconds.
- Races between resolution and the bulk delete, and any concurrent writers: each operation sees one snapshot of the store.
- `Item.key` and `Item.ttl` stand for `item.cacheKey()` and `int(item.ttl)`, and `getKey` is an opaque field of `Externals`: nothing ties `getKey(ItemRef(item))` to `item.key`, so the model does not show that a `Get` or `Del` of an item reaches the key its `Set` wrote.
- The panics of `Set`'s unchecked type assertions with two or three arguments: they are the precondition `TypedArgs`.
- The difference between DEL and UNLINK (blocking versus background reclamation): both remove the keys from the keyspace.
- MGet's replies for keys holding non-string types, and its `v.(string)` assertion: the model's store holds only string values.
