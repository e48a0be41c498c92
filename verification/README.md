# gache in Dafny

A model of the core of gache, a distributed read-through cache library in
Go. Each process holds named cache namespaces (`Group`s). `Group.Get(key)`
answers from the local cache, or else from the peer process that owns the
key, or else from a user-supplied loader (the `Getter`). Only values loaded
locally are cached. Peers are chosen with a consistent-hash ring of virtual
nodes, and an HTTP pool routes peer requests of the form
`/_gache/<group>/<key>` to the named group.

The model is functional. Groups, the registry, the ring and the HTTP pool
are immutable records, and every operation is a pure function returning
the new state. The modules follow the source files:

| file | module | models |
|---|---|---|
| `wrappers.dfy` | `Wrappers` | `Option`, `Result`, and `Panicking` (a result or a Go panic) |
| `byteview.dfy` | `ByteViews` | `byteview.go`: the value container and its copies |
| `sorting.dfy` | `Sorting` | `sort.Ints` as used by the ring, and uniqueness of the sorted permutation |
| `consistenthash.dfy` | `ConsistentHash` | `consistenthash/consistenthash.go`: `New`, `Add`, `Get`, and `sort.Search` |
| `gache.dfy` | `Gache` | `gache.go`: `Group.Get`, `load`, `getLocally`, `getFromPeer`, `populateCache`, `RegisterPeers`, `NewGroup`, `GetGroup` |
| `http.dfy` | `Http` | `http.go`: `NewHTTPPool`, `Set`, `PickPeer`, and the routing decisions of `ServeHTTP` |
| `scenarios.dfy` | `Scenarios` | the "scores" example of `examples/main.go` |

Conventions:

- Go strings are Dafny `string`s with one character per byte.
  `[]byte(s)` is `ByteViews.FromString`.
- The ring hash is any function from strings to 32-bit unsigned values.
  The library default (CRC-32) is passed in as a parameter.
- Collaborators of `Gache.Get` are parameters. These are the cache wrapper
  (`CacheOps`: create, get, add), the loader, the peer picker, and the peer
  fetch (`Env.fetch`). The cache wrapper and the fetch are not part of the
  model. The program's picker is the HTTP pool, whose `PickPeer` is modelled
  separately as `Http.PickPeer`. Inside `Gache` the picker is any pure
  function from keys to optional peers. `Get` also
  returns the log of calls it made to them. Each branch of the source is
  then a statement about the answer and that log.
- `singleflight.Group.Do` is inlined as a direct call. In a sequential run
  it calls its function once and returns that result.
- The source's panics are the `Panic` case of `Panicking`.

## Model

| member | source | states |
|---|---|---|
| `ByteViews.Len` | byteview.go:10-12 | The view's length is the number of stored bytes, and it is zero exactly for the empty view. |
| `ByteViews.String` | byteview.go:26-28 | The string has exactly the stored bytes: same length as `Len`, and character i equals byte i. |
| `ByteViews.StringThenBytes` | byteview.go:26-28 | Converting a view to a string and back to bytes gives the same view. |
| `ByteViews.BytesThenString` | byteview.go:26-28 | Converting a byte string to a view and back gives the same string. |
| `ByteViews.CloneBytes` | byteview.go:19-23 | The result is a newly allocated array with the same length and the same bytes as the input. |
| `ByteViews.ByteSlice` | byteview.go:15-17 | A fresh array holding the stored bytes, with length `Len`. The view is an immutable sequence, so writing to the array cannot change it. |
| `Sorting.Sort` | consistenthash/consistenthash.go:46 | The result is ascending and is a permutation of the input. |
| `Sorting.SortedUnique` | consistenthash/consistenthash.go:46 | Two ascending sequences with the same elements are equal, so the ring does not depend on which sort algorithm `sort.Ints` uses. |
| `Sorting.SortTwice` | consistenthash/consistenthash.go:46 | Sorting `k + a`, appending `b` and sorting again gives the same result as sorting `k + a + b` once. |
| `ConsistentHash.Itoa` | consistenthash/consistenthash.go:41 | `strconv.Itoa(i)` for a replica index: a non-empty string of decimal digits. |
| `ConsistentHash.ItoaRoundTrip` | consistenthash/consistenthash.go:41 | The `strconv.Itoa` prefix of a replica reads back as its index, so distinct indices give distinct prefixes. |
| `ConsistentHash.New` | consistenthash/consistenthash.go:25-35 | A nil hash installs the default hash and any other hash is kept. `replicas` is stored. The ring and owner table start empty, well formed and with no owners. |
| `ConsistentHash.Add` | consistenthash/consistenthash.go:38-47 | Hash and replica factor are unchanged. The ring grows by exactly `replicas × len(nodes)` entries (none for a negative factor). It is sorted afterwards, and every previous entry remains. |
| `ConsistentHash.Record` | consistenthash/consistenthash.go:40-44 | The owner table gains exactly the new virtual hashes. Entries not overwritten are unchanged. A new entry is owned by one of the new virtual nodes. On a collision the last virtual node written owns the entry. |
| `ConsistentHash.AddPlacesReplicas` | consistenthash/consistenthash.go:39-45 | For every added node n and every i below the replica count, `hash(itoa(i)+n)` is on the ring and has an owner. All previous entries stay. |
| `ConsistentHash.AddLastWriterWins` | consistenthash/consistenthash.go:41-43 | A virtual node that no later virtual node collides with owns its ring position after `Add`. |
| `ConsistentHash.AddPreservesValid` | consistenthash/consistenthash.go:38-47 | After `Add` the ring is still sorted, and the owner table covers exactly the ring positions. |
| `ConsistentHash.AddPreservesOwners` | consistenthash/consistenthash.go:43 | After `Add`, every virtual node belongs to a node passed to this `Add` or to an earlier one. |
| `ConsistentHash.AddTwice` | consistenthash/consistenthash.go:38-47 | `Add` is additive: `Add(a)` then `Add(b)` builds the same ring and table as `Add(a + b)`. |
| `ConsistentHash.FirstAtLeast` | consistenthash/consistenthash.go:54-58 | The least index whose entry is ≥ the hash, or the ring length when there is none. |
| `ConsistentHash.Get` | consistenthash/consistenthash.go:50-53 | An empty ring yields "". |
| `ConsistentHash.GetSelectsFirstAtLeast` | consistenthash/consistenthash.go:54-63 | On a well-formed ring, if i is the least index with `keys[i] ≥ hash(key)`, then `Get` returns `hashMap[keys[i]]`. |
| `ConsistentHash.GetWrapsAround` | consistenthash/consistenthash.go:59-63 | If `hash(key)` exceeds every ring entry, `Get` returns the owner of `keys[0]`. |
| `ConsistentHash.GetIsClockwiseOwner` | consistenthash/consistenthash.go:50-64 | On a well-formed ring, `Get` returns the owner of the first position clockwise from the key's hash, treating the ring as a circle. |
| `ConsistentHash.ClockwiseExists` | consistenthash/consistenthash.go:50-64 | Every non-empty well-formed ring has a first position clockwise from any key's hash, and `Get` returns that position's owner. |
| `ConsistentHash.GetReturnsOwner` | consistenthash/consistenthash.go:43 | On a non-empty ring built by `Add`, `Get` returns a node that was passed to some `Add`. |
| `ConsistentHash.AddMovesKeysOnlyToNewNodes` | consistenthash/consistenthash.go:38-64 | Adding nodes changes the owner of a key only to one of the added nodes. Every other key keeps its owner. |
| `ConsistentHash.Search` | consistenthash/consistenthash.go:56-58 | The binary search of `sort.Search` on a sorted ring finds the least index whose entry is ≥ the hash, or the ring length. |
| `ConsistentHash.GetBySearch` | consistenthash/consistenthash.go:50-64 | The source's lookup with binary search and `idx % len` agrees with `Get` on every sorted ring. |
| `Gache.PopulateCache` | gache.go:130-132 | The cache becomes the result of adding the value under the key. Name, loader and peers are unchanged. |
| `Gache.GetLocally` | gache.go:105-113 | If the loader fails, its error comes back unchanged with an empty view, nothing is cached, and only the loader was called. If it succeeds, a copy of its bytes is cached under the key and returned. The calls are the load and then one cache add. |
| `Gache.GetFromPeer` | gache.go:116-127 | The peer is asked for (group name, key). It succeeds exactly when the fetch succeeds, and then returns the peer's bytes; otherwise it returns the fetch error. |
| `Gache.Load` | gache.go:86-102 | When a picked peer answers, its bytes are returned, the group is unchanged and the cache is not touched. Otherwise (no picker, nothing picked, or the peer failed) the answer is the one from `getLocally`, after the picker and peer calls. |
| `Gache.Get` | gache.go:65-74 | An empty key returns "key is required" with an empty view and calls nothing. Any other key starts with a cache lookup. An error always comes with an empty view. Name, loader and peers never change. |
| `Gache.GetCacheHit` | gache.go:69-72 | On a cache hit, `Get` returns the cached value. It makes only the cache lookup: no picker, no peer, no loader. |
| `Gache.GetFromPeerNotCached` | gache.go:88-92 | On a miss where a picked peer answers, `Get` returns the peer's bytes. It adds nothing to the cache and never calls the loader. |
| `Gache.GetFallsBackToLoader` | gache.go:88-112 | On a miss with no peer, no picked peer or a failing peer, the loader is called exactly once. A loader error is returned unchanged with an empty view and nothing cached. A loader value is cached exactly once under the key and returned. |
| `Gache.GetErrorsComeFromLoader` | gache.go:65-112 | Every error `Get` returns is either "key is required" for the empty key or the loader's own error. A peer's error never reaches the caller. |
| `Gache.GetCachesOnlyLoadedValues` | gache.go:98-112 | If `Get` adds to the cache, the key is non-empty and the loader succeeded. Its bytes go under `key`, exactly once, and are the value returned. |
| `Gache.LoadedValueServedFromCache` | gache.go:65-113 | With a cache that keeps what it is given, a value loaded locally is answered by the next `Get` from the cache alone. |
| `Gache.RegisterPeers` | gache.go:77-82 | The first registration sets the picker and changes nothing else. Any registration after a non-nil picker is set panics with "RegisterPeerPicker called more than once". |
| `Gache.RegisterPeersOnlyOnce` | gache.go:77-82 | After a picker has been registered, every further `RegisterPeers` panics. |
| `Gache.NewGroup` | gache.go:40-54 | A nil getter panics with "nil Getter" and registers nothing. Otherwise the new group has the name, the getter, a fresh cache of the given budget and no peers. It is stored under `name`, replacing any earlier group, and other names keep their groups. |
| `Gache.GetGroup` | gache.go:57-62 | Returns the group registered under the name, or nil when there is none. |
| `Gache.RegisterPeersOf` | gache.go:57-82 | Registering a picker on the group registered under `name`: it panics on a nil group (unknown name) or an already-set picker. Otherwise only that registry entry changes, and only its picker. |
| `Gache.NewGroupThenRegisterPeers` | examples/main.go:29-32 | After `NewGroup` and a registration on the new group, `GetGroup` finds the group with the picker, and a second registration panics. |
| `Gache.NewGroupThenGetGroup` | gache.go:40-62 | After `NewGroup`, `GetGroup(name)` finds the new group, and every other name finds what it found before. |
| `Http.NewHTTPPool` | http.go:35-37 | Records `self` and sets the base path to "/_gache/". There is no ring and no getters. |
| `Http.Set` | http.go:103-112 | The ring is a new well-formed ring of 50 replicas with exactly `50 × len(peers)` entries, owned only by the given peers. There is one getter per peer, with base URL `peer + basePath`. |
| `Http.SetDiscardsPrevious` | http.go:103-111 | The ring and getter table after `Set` do not depend on the previous ones. |
| `Http.SetPlacesEveryPeer` | http.go:106-107 | After `Set`, every replica of every given peer is on the ring and has an owner. |
| `Http.PickPeer` | http.go:115-123 | Returns `(httpGetters[owner], true)` exactly when the ring owner of the key is non-empty and not `self`, and `(nil, false)` otherwise. A pool whose ring was never set panics. |
| `Http.PickPeerAfterSet` | http.go:103-123 | On a pool configured with a non-empty peer list, the owner is one of the peers. A picked peer is not `self` and comes with its own getter. A key is handled locally only when its owner is `self` or "". |
| `Http.SplitN2` | http.go:50 | `strings.SplitN(s, "/", 2)`: one part exactly when `s` has no '/'. Otherwise the first part has no '/' and the parts joined by '/' give back `s`. |
| `Http.Route` | http.go:44-66 | A path without the base-path prefix panics. A status of 400 only occurs when the remainder has no '/'. Only 200, 400, 404 and 500 occur. The registry keeps its names. |
| `Http.RouteWithoutKey` | http.go:50-54 | A remainder with no '/' gives 400 "bad request" and touches no group. |
| `Http.RouteToGroup` | http.go:50-66 | `<basePath><group>/<key>` reaches `group` with `key`, even when the key contains '/'. An unknown group gives 404. A `Get` error gives 500 with the error text. Otherwise 200 with the value, and the registry holds the group as `Get` left it. |
| `Scenarios.CreateScores` | examples/main.go:17-26 | `NewGroup("scores", 2<<10, loader)` registers the scores group, and `GetGroup("scores")` finds it. |
| `Scenarios.TomIsLoadedOnceThenCached` | examples/main.go:11-26 | The first `Get("Tom")` calls the loader once, returns "630" and caches it. The second answers from the cache alone. |
| `Scenarios.UnknownIsNeverCached` | examples/main.go:17-26 | `Get("Unknown")` returns "Unknown not exist" and caches nothing. Repeating it calls the loader again. |
| `Scenarios.EmptyKeyIsRejected` | gache.go:66-68 | `Get("")` returns "key is required" and calls no collaborator. |

## Left out

- The LRU cache (`lru/lru.go`) and the `cache` wrapper around it are not part of this model: only the type declarations of the LRU are available. The cache is an abstract create/get/add triple, and no eviction behaviour is assumed. `Scenarios` uses a keep-everything fixture in its place.
- `singleflight/singleflight.go`: collapsing concurrent callers needs threads. Sequentially, `Do` is a direct call.
- Mutexes (`sync.RWMutex` on the registry, `HTTPPool.mu`) and all concurrency.
- `httpGetter.Get`: network I/O, URL escaping and protobuf decoding. A peer fetch is an abstract fallible function.
- The default CRC-32 hash: a library call. It is the `crc` parameter of `New` and `Set`.
- `ServeHTTP` after the group lookup: protobuf marshalling (and its 500 on failure), headers, and writing the body. A 200 reply carries the value instead of its encoding.
- Logging (`HTTPPool.Log`, `log.Println`) and `GetterFunc.Get`, an adapter that only calls its function.
- `peers.go`: interfaces only. They appear as the picker and fetch parameters.
- `examples/main.go` beyond its table and `createGroup`: flags and server start-up.
- Go's 64-bit `int`: overflow of the ring size or of hash conversions is not modelled (hashes are 32-bit and convert to `int` without loss).
- Shared references: Go's registry holds the same `*Group` that `NewGroup` returns, and the pool is shared through the `*HTTPPool` registered as picker. The model has values instead. A registration must go through `Gache.RegisterPeersOf`, which writes the group back under its name. A registration through a stale pointer to a group whose name was later re-used by `NewGroup` is not modelled.
- The picker inside `Gache.Get` is a fixed, total function. Its answers do not follow a later `Set` on the pool. The panic of `PickPeer` on a pool whose ring was never set (`Http.PickPeer`) does not reach `Gache.Get`, which never panics in the model.
- `ConsistentHash.GetBySearch`: stated only for sorted rings. `sort.Search` promises its result only for a monotone predicate, and every ring built by `New` and `Add` is sorted (`ConsistentHash.AddPreservesValid`).
- `Http.Route`: the 200 reply holds the value itself, not its protobuf encoding.

## Behaviour worth noting

- A value fetched from a peer is not cached locally (gache.go:90-91, `Gache.GetFromPeerNotCached`).
- `NewGroup` replaces an existing group of the same name (gache.go:52, `Gache.NewGroup`).
- `RegisterPeers` only checks that the current picker is non-nil, so a nil picker can later be replaced (gache.go:78, `Gache.RegisterPeers`).
- `NewGroup` accepts a name containing '/', but `ServeHTTP` splits the path after the base path at its first '/' (http.go:50), so a peer request can never reach such a group. This is why `Http.RouteToGroup` is stated for names without '/'.
