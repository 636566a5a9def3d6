# flycache in Dafny

A model of the core of flycache, a distributed read-through cache in Go. It
covers four parts:

- **lru/lru.go**: an LRU cache with a byte budget (`MaxAllow`, 0 meaning
  unbounded). It keeps a recency list, a key-to-element map, a `usedBytes`
  counter and an optional eviction callback. `Lru.Cache` is a class whose
  fields the methods update in place. The list is a `seq<Entry>`, most
  recently used first. The map is a `map<string, seq<byte>>`. A ghost trace
  `evicted` records the callback's calls. Each operation is proved against
  specification functions on the list (`Put`, `Promote`, `Without`, `Trim`),
  and lemmas about those functions carry the budget, ordering and map facts.
- **chash/chash.go**: the consistent-hash ring. `Chash.Map` holds the sorted
  virtual-node hashes and the hash-to-identity map. `Add` is proved to produce
  `Sort(old keys ++ new virtual hashes)`. `Get` is proved to return the
  identity of the first virtual node clockwise from the key's hash. The
  default hash is CRC-32 (IEEE polynomial), written out bit by bit.
- **cache.go**: the lazy facade `CacheFacade.LruCache`, which builds the
  LRU on its first store.
- **flycache.go**: `FlyCache.Group`. Its `Get` refuses an empty key, serves a
  hit from the cache, and on a miss asks the peer owning the key. If no peer
  answers, it calls the data source and caches the value. `FlyCache.Registry`
  holds the process-wide map of groups (`NewGroup`, `GetGroup`).

Go's `len(s)` on a string counts its bytes. For a key holding valid UTF-8,
an entry's size is therefore the length of `Common.Utf8(key)` plus the
length of its value. Keys and identities are Dafny strings, so they are
always valid UTF-8. Go panics become error results where a caller can see
them. A negative cache budget is refused by a precondition when the group
is built. In Go that group keeps working until its first locally loaded
value is stored, and only then does it dereference a nil LRU.

Ghost traces (`loads`, `fetches`, `evicted`) record which calls reached the
data source, the peers and the eviction callback, so contracts can state
"served without loading" and "the callback fired once per entry".

The scenarios mirror the repository's tests as methods whose `ensures`
states the test's expectation: `Lru.GetScenario`, `Lru.AddScenario`,
`Lru.DelScenario`, `Lru.RemoveOldestScenario`, `Lru.KeysScenario`,
`CacheFacade.FacadeScenario`, `FlyCache.GetScenario` and
`FlyCache.GetGroupScenario`.

## Model

| member | source | states |
|---|---|---|
| Common.EncodeChar | lru/lru.go:71 | each character takes one to four bytes, exactly one when it is ASCII |
| Common.ByteLenBounds | lru/lru.go:120 | `len(key)` of a valid UTF-8 key is between the character count and four times it, and equals it for ASCII keys |
| Lru.Trim | lru/lru.go:74-76 | the eviction loop only drops entries from the back: its result is a prefix of the list |
| Lru.TrimWithinBudget | lru/lru.go:74-76 | after the loop, the bytes still counted are within a positive budget |
| Lru.TrimMinimal | lru/lru.go:74-76 | the loop evicts no more than needed: keeping one more entry would exceed the budget |
| Lru.TrimKeepsFittingPrefix | lru/lru.go:74-76 | a most-recent prefix that fits the budget is never evicted |
| Lru.TrimStops | lru/lru.go:74-76 | the loop ends within the budget or with an empty list |
| Lru.FrontSurvives | lru/lru.go:62-76 | the entry `Set` just stored survives eviction if and only if the budget is unbounded or the entry fits in it beside the bytes a `Purge` left counted |
| Lru.UsedWithout | lru/lru.go:119-122 | removing one entry gives back exactly its key's and its value's bytes |
| Lru.PromoteKeeps | lru/lru.go:51-52 | `MoveToFront` puts the entry first and keeps the same entries and byte count |
| Lru.PutShape | lru/lru.go:62-72 | after a store the entry is in front and keys stay distinct; the key set gains `key`; the byte count changes by the value's size difference (update) or by key plus value (insert) |
| Lru.DistinctWithout | lru/lru.go:109-113 | unlinking an entry keeps keys distinct and removes exactly that key |
| Lru.ToMapDomain | lru/lru.go:12-13 | a key is in the map built from the list exactly when the list holds it |
| Lru.ToMapAt | lru/lru.go:12-13 | the map gives each listed key its listed value |
| Lru.ToMapSize | lru/lru.go:156 | `len(c.items)` equals the list's length when keys are distinct |
| Lru.ToMapWithout | lru/lru.go:110-112 | removing an element from the list removes its key from the map |
| Lru.ToMapPut | lru/lru.go:63-71 | storing in the list updates the map at the key |
| Lru.AgreePut | lru/lru.go:63-71 | a store keeps the list and `items` in agreement |
| Lru.AgreeWithout | lru/lru.go:109-113 | an unlink keeps the list and `items` in agreement |
| Lru.AgreeMember | lru/lru.go:51-53 | an entry is listed exactly when `items` maps its key to its value |
| Lru.FireOne | lru/lru.go:137-143 | each purge step fires a key not fired before |
| Lru.PromoteIsPut | lru/lru.go:50-67 | promoting an entry on `Get` is the same as storing its value again with `Set` |
| Lru.ReversedAt | lru/lru.go:158-160 | walking the list from the back visits entry `len-1-k` at step `k` |
| Lru.New | lru/lru.go:34-47 | a negative budget gives the error and no cache; otherwise an empty, valid cache with the budget and callback |
| Lru.Cache.constructor | lru/lru.go:39-44 | an empty list and map with zero bytes counted |
| Lru.Cache.Get | lru/lru.go:50-59 | found iff the key is listed; a hit returns its value and moves it to the front; a miss changes nothing |
| Lru.Cache.Set | lru/lru.go:62-77 | the new list is `Trim(Put(old list, key, val))`; the cache stays valid within a positive budget; the callback fires for evicted entries |
| Lru.Cache.EvictOverBudget | lru/lru.go:74-76 | the loop leaves `Trim` of the list and fires the callback for the evicted entries, oldest first |
| Lru.Cache.Del | lru/lru.go:80-91 | true iff the key was listed; the entry leaves the list and map with its bytes, and the callback fires for it; an absent key changes nothing |
| Lru.Cache.RemoveOldest | lru/lru.go:94-106 | removes and returns the back entry with its bytes and fires the callback; an empty cache returns false and changes nothing |
| Lru.Cache.RemoveElement | lru/lru.go:109-117 | the entry leaves list and map; the callback fires with it if one is set |
| Lru.Cache.UpdateUsedBytes | lru/lru.go:119-122 | the byte count drops by the entry's key and value bytes |
| Lru.Cache.GetOldest | lru/lru.go:125-133 | returns the back entry without changing anything; false on an empty cache |
| Lru.Cache.Purge | lru/lru.go:136-147 | empties list and map and fires the callback once per entry, but leaves `usedBytes` unchanged |
| Lru.Cache.DeleteAllItems | lru/lru.go:137-144 | deletes every key of the map in some order; the callback fires exactly once per listed entry |
| Lru.Cache.Clear | lru/lru.go:136-147 | as `Purge`, and the byte count returns to zero |
| Lru.Cache.Contains | lru/lru.go:149-152 | true iff the key is listed; no recency change |
| Lru.Cache.Keys | lru/lru.go:155-164 | the keys, least recently used first: the reverse of the list's keys |
| Lru.Cache.Equal | lru/lru.go:166-178 | true iff the two key lists are equal |
| Lru.GetScenario | lru/lru_test.go:7-16 | after `Set("k1","111")`, `k1` is found with `111` and `k2` is not |
| Lru.AddScenario | lru/lru_test.go:18-30 | two stores each of `k3` and `k4` leave 14 bytes counted |
| Lru.AddTrace | lru/lru_test.go:18-30 | the list after each store of that test, and its byte count |
| Lru.DelScenario | lru/lru_test.go:32-40 | `Del` of a stored key reports true and the key is then missing |
| Lru.RemoveOldestScenario | lru/lru_test.go:42-54 | with a budget fitting two entries, a third store evicts `k1` and leaves two entries |
| Lru.RemoveOldestTrace | lru/lru_test.go:42-54 | the list after each store of that test |
| Lru.KeysScenario | lru/lru_test.go:56-67 | after storing `k5` then `k6`, `Keys` returns `["k5","k6"]` |
| Lru.PurgeKeepsBytesCounted | lru/lru.go:136-147 | as written: after `Purge` an entry that fits the budget alone is evicted at once |
| Lru.ClearFreesBytes | lru/lru.go:136-147 | corrected: after `Clear` the same entry is kept |
| Lru.PurgeDriftEvicts | lru/lru.go:136-147 | bytes left counted by a purge evict a fitting entry; with none left it survives |
| Chash.Replicas | chash/chash.go:33-36 | one virtual node per replica index, for `Itoa(i) + key` |
| Chash.VNodesLength | chash/chash.go:32-43 | `Add` makes exactly `replicas` virtual nodes per identity |
| Chash.VNodesIds | chash/chash.go:32-42 | every virtual node stands for one of the added identities |
| Chash.AssignDomain | chash/chash.go:42 | the hash map is defined at the old hashes and the new virtual hashes, nowhere else |
| Chash.AssignValues | chash/chash.go:42 | every identity in the hash map is one that was added |
| Chash.AssignLastWins | chash/chash.go:42 | when virtual hashes collide, the last identity written wins |
| Chash.InsertPermutes | chash/chash.go:45 | one insertion step of the sort adds exactly its element |
| Chash.InsertSorted | chash/chash.go:45 | one insertion step keeps the ring sorted |
| Chash.SortSorted | chash/chash.go:45 | `sort.Ints` yields an ascending permutation |
| Chash.SortIsUnique | chash/chash.go:45 | any ascending permutation of the hashes is the one the sort produces |
| Chash.SortKeepsElements | chash/chash.go:45 | sorting neither adds nor drops a hash |
| Chash.Search | chash/chash.go:57 | `sort.Search` returns the first index whose hash is at least the key's hash |
| Chash.OwnerUnique | chash/chash.go:57-59 | at most one ring position owns a hash |
| Chash.OwnerOfPresentHash | chash/chash.go:57-59 | a key hashing onto a virtual hash is owned by that virtual node |
| Chash.OwnerIsSuccessor | chash/chash.go:57-59 | the owner holds the least virtual hash at or after the key's hash |
| Chash.OwnerWraps | chash/chash.go:59 | past the largest virtual hash the owner is the least one |
| Chash.Owner | chash/chash.go:57-59 | `idx % len(keys)` is the owning position |
| Chash.WrapIndex | chash/chash.go:59 | the index one past the end wraps to 0, any other index is kept |
| Chash.RingStaysValid | chash/chash.go:31-46 | after `Add`, every ring hash is mapped and every mapped identity was added |
| Chash.GetFindsSuccessor | chash/chash.go:31-59 | after `Add`, a key whose nearest virtual hash clockwise belongs to an added node maps to that node's identity |
| Chash.GetWrapsAround | chash/chash.go:31-59 | after `Add`, a key past every virtual hash maps to the identity of the least one |
| Chash.Map.constructor | chash/chash.go:18-28 | an empty ring with the given hash, or CRC-32 (IEEE) when none is given |
| Chash.Map.Add | chash/chash.go:31-46 | the ring is the sort of the old hashes plus the new virtual hashes, and the map records each, later ones overwriting |
| Chash.Map.AddIds | chash/chash.go:32-44 | the identity loop appends every identity's virtual hashes in order |
| Chash.Map.AddReplicas | chash/chash.go:33-43 | the replica loop appends one identity's virtual hashes in order |
| Chash.Map.Get | chash/chash.go:49-60 | `""` on an empty ring; otherwise an added identity, the one at the position owning the key's hash |
| CacheFacade.LruCache.constructor | cache.go:8-12 | no engine yet, the given budget, no entries |
| CacheFacade.LruCache.Set | cache.go:14-23 | the engine is built on the first store and kept after; the entries become `Trim(Put(...))` |
| CacheFacade.LruCache.Get | cache.go:25-38 | a miss before the engine exists; otherwise the engine's lookup with its promotion |
| CacheFacade.LruCache.Del | cache.go:40-49 | true iff the key was cached, and the key is gone afterwards |
| CacheFacade.LruCache.Stats | cache.go:52-54 | the engine's byte count is the sizes of the live entries, within a positive budget |
| CacheFacade.SetThenGet | cache.go:14-38 | after `set(k, v)`, `get(k)` finds `v` at the front iff the budget is unbounded or the entry fits in it |
| CacheFacade.FacadeScenario | cache.go:14-38 | `get` before any `set` misses; after `set`, `get` returns the value |
| FlyCache.LoadFailsOnlyWithGetter | flycache.go:82-101 | `load` fails iff no peer served the key and the getter failed, and then with the getter's error; a peer's error never surfaces |
| FlyCache.LoadWithoutPeer | flycache.go:82-93 | with no peers, or no peer picked, `load` is the getter |
| FlyCache.Group.constructor | flycache.go:49-54 | a group with its name, getter and budget, no peers and an empty cache |
| FlyCache.Group.RegisterPeers | flycache.go:34-39 | the first registration installs the picker; a second is refused and changes nothing |
| FlyCache.Group.Get | flycache.go:69-80 | an empty key is an error; a hit returns the cached value without loading; a miss returns `load`'s result |
| FlyCache.Group.Load | flycache.go:82-101 | the owning peer is asked first; a peer's answer is returned uncached; otherwise the getter is called and a success cached |
| FlyCache.Group.GetFromPeer | flycache.go:103-109 | the peer's answer for this group and key, unchanged |
| FlyCache.Group.GetLocally | flycache.go:111-120 | the getter's answer; a success is cached as `Trim(Put(...))`, an error caches nothing |
| FlyCache.Group.PopulateCache | flycache.go:122-124 | the value is stored in the group's cache |
| FlyCache.Registry.constructor | flycache.go:11-14 | no groups |
| FlyCache.Registry.NewGroup | flycache.go:41-59 | a missing getter is refused; otherwise a fresh group is registered under its name, replacing any earlier one, and no other name changes |
| FlyCache.Registry.GetGroup | flycache.go:61-67 | the group registered under the name, or none |
| FlyCache.ScoresAreUtf8 | flycache_test.go:10-14 | the test's scores as bytes |
| FlyCache.LoadThenHit | flycache_test.go:44-52 | a known key is loaded once and then served from the cache |
| FlyCache.LoadMiss | flycache_test.go:45 | the first `Get` of a known key calls the source and caches its value in front |
| FlyCache.HitFront | flycache_test.go:49 | a `Get` of the most recent key is a hit that changes nothing |
| FlyCache.LoadTomAndJack | flycache_test.go:44-52 | the first two scores, each fetched twice |
| FlyCache.LoadScores | flycache_test.go:44-52 | all three scores, each loaded once and returned twice |
| FlyCache.Undefined | flycache_test.go:54-56 | an unknown key is loaded and reported with `"undefined not exists"`, and the cache is left as it was |
| FlyCache.GetScenario | flycache_test.go:29-57 | TestGet: the three scores come back twice, the source is called once per key, and `undefined` fails and is not cached |
| FlyCache.GetGroupScenario | flycache_test.go:59-71 | TestGetGroup: the group is found by its name and another name is not |
| FlyCache.RegisterTwiceScenario | flycache.go:34-39 | a second `RegisterPeers` is refused |
| FlyCache.PeerScenario | flycache.go:82-101 | a peer's answer is returned without the source or the cache; a peer error falls back to the source, whose value is cached |
| FlyCache.ServedByPeer | flycache.go:84-88 | a key the peer serves leaves the source and the cache untouched |
| FlyCache.PeerFallsBack | flycache.go:86-93 | a key the peer fails on is loaded from the source and cached |

## Left out

- Keys and ring identities are modelled as Unicode strings. A Go string whose bytes are not valid UTF-8 (a key such as `"\xff"` taken from a URL query) is outside the model, and for such strings `Common.Utf8` and `Common.ByteLen` do not stand for `[]byte(s)` and `len(s)`.
- singleflight/singleflight.go is not part of this model: `loader.Do(key, fn)` is modelled as a direct call of `fn`. Without concurrency, deduplicating in-flight calls changes nothing.
- Locks (`sync.Mutex`, `sync.RWMutex`) and `log` calls are left out; the model is sequential.
- http.go and main.go are not part of this model. The HTTP peer transport and the ring lookup in `PickPeer` are abstracted as the two functions of `FlyCache.PeerPicker`.
- `Group.GetStats` (flycache.go:126-128) is not modelled separately. It only forwards `CacheFacade.LruCache.Stats`.
- `GetterFunc` and `TestGetter` are left out: in the model a getter is simply a function value.
- Integer width: `int64` byte counts and Go `int` ring hashes are unbounded integers. Overflow of `usedBytes` is not modelled.
- `ByteView` and `cloneBytes` are modelled as immutable `seq<byte>` values. Aliasing of the underlying slices is not modelled.
- `Value.Len()` of an arbitrary value type is not modelled; values are byte sequences and their length is their size.
- The eviction callback's effects are not modelled. It is recorded as the ghost trace `evicted`, and `onEvicted: bool` says whether one was supplied.
- Go map iteration order is random. `Lru.Cache.DeleteAllItems` picks keys in an unspecified order. `FlyCache.GetScenario` visits the test's scores in one fixed order.
- Panics are modelled in two ways:
  - As error results: `RegisterPeers` called twice returns an error and changes nothing; a nil getter in `NewGroup` returns an error and registers nothing.
  - As preconditions: a negative `cacheBytes` makes `lru.New` fail, and the facade then dereferences a nil engine at its first store (cache.go:18-22). `FlyCache.Registry.NewGroup` and `FlyCache.Group.constructor` require `cacheBytes >= 0` when the group is built, ahead of that crash, treating the negative budget as a configuration error. A Go group with a negative budget still answers empty keys, peer answers and getter errors normally until then; the model does not cover that period. `CacheFacade.LruCache.Set` requires the same at the store itself.
- CacheFacade.LruCache.Del: requires the engine to exist. The Go code dereferences a nil engine there.
- CacheFacade.LruCache.Stats: requires the engine to exist, for the same reason.
- Chash.Map.Add: `sort.Ints` is modelled as insertion sort. `Chash.SortIsUnique` shows that any ascending permutation gives the same ring, so the choice of algorithm does not matter.
- The CRC-32 of the default hash is written out but not compared against known checksums. The ring properties hold for any hash function.
- No concrete ring scenario is modelled (the repository has no test for chash.go). The ring's behaviour is stated for all inputs by `Chash.GetFindsSuccessor` and `Chash.GetWrapsAround`.
- Lru.Cache.EvictOverBudget, Lru.Cache.DeleteAllItems, Chash.Map.AddIds and Chash.Map.AddReplicas: these are loops of `Set`, `Purge` and `Add` extracted into methods. They have no counterpart function in the Go code.

## Findings

| source | as written | input that shows it | evidently intended | confidence | as-written member | corrected member |
|---|---|---|---|---|---|---|
| lru/lru.go:136-147 | `Purge` empties the list and the map but never resets `usedBytes`, so the purged bytes keep counting against the budget | `New(8, nil)`; `Set("k1","v1")`; `Set("k2","v2")`; `Purge()`; `Set("k1","v1")`: `usedBytes` is 12 > 8, so `k1` is evicted at once and `Get("k1")` misses | `usedBytes` returns to 0 with the entries, so a fitting entry is kept | not executed | Lru.PurgeKeepsBytesCounted | Lru.ClearFreesBytes |
