/**
 * The cache namespace (gache.go): a `Group` answers `Get(key)` from its
 * local cache, from the peer that owns the key, or from its loader, and
 * keeps loaded values in its cache. Groups live in a registry keyed by name.
 *
 * Every collaborator whose code is outside this model is a parameter: the
 * cache wrapper (`CacheOps`), the loader (`Getter`), the peer picker and
 * the peer's fetch. `Get` returns, beside its answer, the log of the calls
 * it made to those collaborators, so each branch can be stated as a fact
 * about that log. The request-collapsing `singleflight.Group.Do` runs its
 * function exactly once in a sequential setting and is inlined as a call.
 */
module Gache {
  import opened Wrappers
  import opened ByteViews

  datatype Error = Error(msg: string)

  /** The error `Get` returns for an empty key. */
  const KeyRequired := Error("key is required")

  /** `Getter.Get`: loads the bytes of a key from the data source. */
  type Getter = string -> Result<seq<byte>, Error>

  /** `PeerPicker.PickPeer`: the peer that owns a key, if it is not this node. */
  type PeerPicker<P> = string -> Option<P>

  /** The request a peer receives: `pb.Request{Group, Key}`. */
  datatype Request = Request(group: string, key: string)

  /** The `cache` wrapper around the LRU: creation with a byte budget, lookup
      (which may reorder the entries) and insertion (which may evict). */
  datatype CacheOps<!C> = CacheOps(
    create: int -> C,
    get: (C, string) -> (Option<ByteView>, C),
    add: (C, string, ByteView) -> C)

  /** The collaborators shared by all groups: the cache code and
      `PeerGetter.Get`, which fetches a value from a peer. */
  datatype Env<!C, !P> = Env(cache: CacheOps<C>, fetch: (P, Request) -> Result<seq<byte>, Error>)

  /** `Group`: name, loader, local cache and the peer picker, once registered. */
  datatype Group<C, P> = Group(name: string, getter: Getter, mainCache: C, peers: Option<PeerPicker<P>>)

  /** One call from a group to a collaborator. */
  datatype Call<P> =
    | CacheGet(key: string)
    | CacheAdd(key: string, value: ByteView)
    | PickPeer(key: string)
    | PeerGet(peer: P, req: Request)
    | GetterGet(key: string)

  /** Go's `(ByteView, error)` result, the group afterwards, and the calls made. */
  datatype Answer<C, P> = Answer(view: ByteView, err: Option<Error>, group: Group<C, P>, log: seq<Call<P>>)

  /** Number of occurrences of `c` in `log`. */
  ghost function Count<P>(log: seq<Call<P>>, c: Call<P>): nat
  {
    multiset(log)[c]
  }

  /** Every cache insertion in `log` is `CacheAdd(key, v)`. */
  ghost predicate AddsOnly<P>(log: seq<Call<P>>, key: string, v: ByteView)
  {
    forall i | 0 <= i < |log| && log[i].CacheAdd? :: log[i] == CacheAdd(key, v)
  }

  /** `log` holds no cache insertion. */
  ghost predicate NoAdds<P>(log: seq<Call<P>>)
  {
    forall i | 0 <= i < |log| :: !log[i].CacheAdd?
  }

  /** The group is the same apart from its cache. */
  ghost predicate SameGroup<C, P>(g: Group<C, P>, h: Group<C, P>)
  {
    h.name == g.name && h.getter == g.getter && h.peers == g.peers
  }

  // ---------------------------------------------------------------------------
  // Loading

  /** `populateCache`: adds the value to the main cache. */
  function PopulateCache<C, P>(g: Group<C, P>, env: Env<C, P>, key: string, value: ByteView): (h: Group<C, P>)
    ensures SameGroup(g, h)
    ensures h.mainCache == env.cache.add(g.mainCache, key, value)
  {
    g.(mainCache := env.cache.add(g.mainCache, key, value))
  }

  /** `getLocally`: calls the loader; on success caches a copy of its bytes
      and returns it, on failure returns the loader's error and an empty view. */
  function GetLocally<C, P>(g: Group<C, P>, env: Env<C, P>, key: string): (a: Answer<C, P>)
    ensures SameGroup(g, a.group)
    ensures g.getter(key).Err? ==>
      a.err == Some(g.getter(key).error) && a.view == Empty
      && a.group == g && a.log == [GetterGet(key)]
    ensures g.getter(key).Ok? ==>
      var v := ByteView(g.getter(key).value);
      a.err == None && a.view == v
      && a.group.mainCache == env.cache.add(g.mainCache, key, v)
      && a.log == [GetterGet(key), CacheAdd(key, v)]
  {
    match g.getter(key)
    case Err(e) => Answer(Empty, Some(e), g, [GetterGet(key)])
    case Ok(bytes) =>
      var value := ByteView(bytes);
      Answer(value, None, PopulateCache(g, env, key, value), [GetterGet(key), CacheAdd(key, value)])
  }

  /** `getFromPeer`: asks `peer` for `key` of this group; the value is the
      peer's bytes, not a copy. */
  function GetFromPeer<C, P>(g: Group<C, P>, env: Env<C, P>, peer: P, key: string): (r: Result<ByteView, Error>)
    ensures env.fetch(peer, Request(g.name, key)).Ok? <==> r.Ok?
    ensures r.Ok? ==> r.value.b == env.fetch(peer, Request(g.name, key)).value
    ensures r.Err? ==> r.error == env.fetch(peer, Request(g.name, key)).error
  {
    match env.fetch(peer, Request(g.name, key))
    case Ok(bytes) => Ok(ByteView(bytes))
    case Err(e) => Err(e)
  }

  /** The peer the group's picker chooses for `key`, if any. */
  function Picked<C, P>(g: Group<C, P>, key: string): Option<P>
  {
    if g.peers.Some? then g.peers.value(key) else None
  }

  /** A peer was picked and answered. */
  ghost predicate PeerServes<C, P>(g: Group<C, P>, env: Env<C, P>, key: string)
  {
    Picked(g, key).Some? && env.fetch(Picked(g, key).value, Request(g.name, key)).Ok?
  }

  /** The calls `load` makes before it falls back to the loader. */
  function PeerLog<C, P>(g: Group<C, P>, key: string): seq<Call<P>>
  {
    (if g.peers.Some? then [PickPeer(key)] else [])
    + (if Picked(g, key).Some? then [PeerGet(Picked(g, key).value, Request(g.name, key))] else [])
  }

  /** `load` with `singleflight.Do` inlined: try the picked peer, fall back to
      `getLocally` when there is no peer or the peer fails. */
  function Load<C, P>(g: Group<C, P>, env: Env<C, P>, key: string): (a: Answer<C, P>)
    ensures SameGroup(g, a.group)
    ensures PeerServes(g, env, key) ==>
      a.err == None
      && a.view.b == env.fetch(Picked(g, key).value, Request(g.name, key)).value
      && a.group == g && a.log == PeerLog(g, key)
    ensures !PeerServes(g, env, key) ==>
      var local := GetLocally(g, env, key);
      a.view == local.view && a.err == local.err && a.group == local.group
      && a.log == PeerLog(g, key) + local.log
  {
    var peerLog := PeerLog(g, key);
    match Picked(g, key)
    case Some(peer) =>
      (match GetFromPeer(g, env, peer, key)
       case Ok(value) => Answer(value, None, g, peerLog)
       case Err(_) =>
         var local := GetLocally(g, env, key);
         local.(log := peerLog + local.log))
    case None =>
      var local := GetLocally(g, env, key);
      local.(log := peerLog + local.log)
  }

  // ---------------------------------------------------------------------------
  // Get

  /** The group after the cache lookup that starts every non-empty `Get`. */
  function AfterLookup<C, P>(g: Group<C, P>, env: Env<C, P>, key: string): Group<C, P>
  {
    g.(mainCache := env.cache.get(g.mainCache, key).1)
  }

  /** `Group.Get`. */
  function Get<C, P>(g: Group<C, P>, env: Env<C, P>, key: string): (a: Answer<C, P>)
    ensures SameGroup(g, a.group)
    ensures key == "" ==> a.err == Some(KeyRequired) && a.view == Empty && a.group == g && a.log == []
    ensures key != "" ==> |a.log| > 0 && a.log[0] == CacheGet(key)
    ensures a.err.Some? ==> a.view == Empty
  {
    if key == "" then
      Answer(Empty, Some(KeyRequired), g, [])
    else
      var (hit, cache) := env.cache.get(g.mainCache, key);
      var g1 := g.(mainCache := cache);
      if hit.Some? then
        Answer(hit.value, None, g1, [CacheGet(key)])
      else
        var a := Load(g1, env, key);
        a.(log := [CacheGet(key)] + a.log)
  }

  /** A cache hit answers from the cache and calls nothing else. */
  lemma GetCacheHit<C, P>(g: Group<C, P>, env: Env<C, P>, key: string)
    requires key != "" && env.cache.get(g.mainCache, key).0.Some?
    ensures Get(g, env, key).view == env.cache.get(g.mainCache, key).0.value
    ensures Get(g, env, key).err == None
    ensures Get(g, env, key).log == [CacheGet(key)]
  {
  }

  /** On a miss a value served by a peer is returned and not cached. */
  lemma GetFromPeerNotCached<C, P>(g: Group<C, P>, env: Env<C, P>, key: string)
    requires key != "" && env.cache.get(g.mainCache, key).0.None?
    requires PeerServes(AfterLookup(g, env, key), env, key)
    ensures Get(g, env, key).err == None
    ensures Get(g, env, key).view.b == env.fetch(Picked(g, key).value, Request(g.name, key)).value
    ensures Get(g, env, key).group == AfterLookup(g, env, key)
    ensures NoAdds(Get(g, env, key).log)
    ensures Count(Get(g, env, key).log, GetterGet(key)) == 0
  {
    var g1 := AfterLookup(g, env, key);
    assert Get(g, env, key).log == [CacheGet(key)] + PeerLog(g1, key);
  }

  /** On a miss with no peer, no picked peer, or a failing peer, the answer is
      the loader's. */
  lemma GetFallsBackToLoader<C, P>(g: Group<C, P>, env: Env<C, P>, key: string)
    requires key != "" && env.cache.get(g.mainCache, key).0.None?
    requires !PeerServes(AfterLookup(g, env, key), env, key)
    ensures Count(Get(g, env, key).log, GetterGet(key)) == 1
    ensures g.getter(key).Err? ==>
      && Get(g, env, key).err == Some(g.getter(key).error)
      && Get(g, env, key).view == Empty
      && Get(g, env, key).group == AfterLookup(g, env, key)
      && NoAdds(Get(g, env, key).log)
    ensures g.getter(key).Ok? ==>
      var v := ByteView(g.getter(key).value);
      && Get(g, env, key).err == None
      && Get(g, env, key).view == v
      && Get(g, env, key).group.mainCache == env.cache.add(env.cache.get(g.mainCache, key).1, key, v)
      && AddsOnly(Get(g, env, key).log, key, v)
      && Count(Get(g, env, key).log, CacheAdd(key, v)) == 1
  {
    var g1 := AfterLookup(g, env, key);
    var local := GetLocally(g1, env, key);
    var pre := [CacheGet(key)] + PeerLog(g1, key);
    FallbackAnswer(g, env, key);
    PeerLogQuiet(g1, key);
    var v := if g.getter(key).Ok? then ByteView(g.getter(key).value) else Empty;
    QuietPrefix(pre, local.log, key, v);
    LoaderLog(g1, env, key);
  }

  /** The calls `getLocally` makes. */
  lemma LoaderLog<C, P>(g: Group<C, P>, env: Env<C, P>, key: string)
    ensures Count(GetLocally(g, env, key).log, GetterGet(key)) == 1
    ensures g.getter(key).Err? ==> NoAdds(GetLocally(g, env, key).log)
    ensures g.getter(key).Ok? ==>
      var v := ByteView(g.getter(key).value);
      && AddsOnly(GetLocally(g, env, key).log, key, v)
      && Count(GetLocally(g, env, key).log, CacheAdd(key, v)) == 1
  {
  }

  /** A prefix without loads or cache insertions adds none to a log. */
  lemma QuietPrefix<P>(pre: seq<Call<P>>, tail: seq<Call<P>>, key: string, v: ByteView)
    requires NoAdds(pre) && Count(pre, GetterGet(key)) == 0
    ensures Count(pre + tail, GetterGet(key)) == Count(tail, GetterGet(key))
    ensures Count(pre + tail, CacheAdd(key, v)) == Count(tail, CacheAdd(key, v))
    ensures NoAdds(tail) ==> NoAdds(pre + tail)
    ensures AddsOnly(tail, key, v) ==> AddsOnly(pre + tail, key, v)
  {
    assert multiset(pre + tail) == multiset(pre) + multiset(tail);
    forall i | |pre| <= i < |pre + tail| ensures (pre + tail)[i] == tail[i - |pre|] {}
  }

  lemma FallbackAnswer<C, P>(g: Group<C, P>, env: Env<C, P>, key: string)
    requires key != "" && env.cache.get(g.mainCache, key).0.None?
    requires !PeerServes(AfterLookup(g, env, key), env, key)
    ensures var g1 := AfterLookup(g, env, key);
      var local := GetLocally(g1, env, key);
      Get(g, env, key) == local.(log := [CacheGet(key)] + PeerLog(g1, key) + local.log)
  {
  }

  lemma PeerLogQuiet<C, P>(g: Group<C, P>, key: string)
    ensures NoAdds([CacheGet(key)] + PeerLog(g, key))
    ensures Count([CacheGet(key)] + PeerLog(g, key), GetterGet(key)) == 0
  {
  }

  /** Errors that reach the caller are an empty key or the loader's own
      error; a peer's failure never surfaces. */
  lemma GetErrorsComeFromLoader<C, P>(g: Group<C, P>, env: Env<C, P>, key: string)
    ensures Get(g, env, key).err.Some? ==>
      (key == "" && Get(g, env, key).err == Some(KeyRequired))
      || (key != "" && g.getter(key) == Err(Get(g, env, key).err.value))
  {
    if key != "" && env.cache.get(g.mainCache, key).0.None?
      && !PeerServes(AfterLookup(g, env, key), env, key)
    {
      GetFallsBackToLoader(g, env, key);
    }
  }

  /** Only loader results enter the cache: if `Get` adds anything, it is the
      loader's bytes under `key`, added once, and it is the value returned. */
  lemma GetCachesOnlyLoadedValues<C, P>(g: Group<C, P>, env: Env<C, P>, key: string)
    ensures !NoAdds(Get(g, env, key).log) ==>
      && key != "" && g.getter(key).Ok?
      && Get(g, env, key).err == None
      && Get(g, env, key).view == ByteView(g.getter(key).value)
      && AddsOnly(Get(g, env, key).log, key, Get(g, env, key).view)
      && Count(Get(g, env, key).log, CacheAdd(key, Get(g, env, key).view)) == 1
  {
    if key != "" && env.cache.get(g.mainCache, key).0.None? {
      if PeerServes(AfterLookup(g, env, key), env, key) {
        GetFromPeerNotCached(g, env, key);
      } else {
        GetFallsBackToLoader(g, env, key);
      }
    }
  }

  /** The cache returns what was last added under a key (no eviction). */
  ghost predicate ReadsOwnWrites<C(!new)>(ops: CacheOps<C>)
  {
    forall c, k, v :: ops.get(ops.add(c, k, v), k).0 == Some(v)
  }

  /** With a cache that keeps what it is given, a value loaded locally is
      served from the cache by the next `Get`, without another load. */
  lemma LoadedValueServedFromCache<C(!new), P>(g: Group<C, P>, env: Env<C, P>, key: string)
    requires ReadsOwnWrites(env.cache)
    requires key != "" && env.cache.get(g.mainCache, key).0.None?
    requires !PeerServes(AfterLookup(g, env, key), env, key)
    requires g.getter(key).Ok?
    ensures Get(Get(g, env, key).group, env, key).view == Get(g, env, key).view
    ensures Get(Get(g, env, key).group, env, key).err == None
    ensures Get(Get(g, env, key).group, env, key).log == [CacheGet(key)]
  {
    GetFallsBackToLoader(g, env, key);
    var v := ByteView(g.getter(key).value);
    assert env.cache.get(env.cache.add(env.cache.get(g.mainCache, key).1, key, v), key).0 == Some(v);
  }

  // ---------------------------------------------------------------------------
  // Peer registration and the registry

  /** `RegisterPeers`: a second registration of a non-nil picker panics. */
  function RegisterPeers<C, P>(g: Group<C, P>, peers: Option<PeerPicker<P>>): (r: Panicking<Group<C, P>>)
    ensures r.Panic? <==> g.peers.Some?
    ensures r.Panic? ==> r.message == "RegisterPeerPicker called more than once"
    ensures r.Done? ==>
      && r.value.peers == peers
      && r.value.name == g.name && r.value.getter == g.getter && r.value.mainCache == g.mainCache
  {
    if g.peers.Some? then Panic("RegisterPeerPicker called more than once")
    else Done(g.(peers := peers))
  }

  /** Once a picker is registered, every further registration panics. */
  lemma RegisterPeersOnlyOnce<C, P>(g: Group<C, P>, p: PeerPicker<P>, q: Option<PeerPicker<P>>)
    requires RegisterPeers(g, Some(p)).Done?
    ensures RegisterPeers(RegisterPeers(g, Some(p)).value, q).Panic?
  {
  }

  /** The process-wide `groups` map. */
  type Registry<C, P> = map<string, Group<C, P>>

  /** `NewGroup`: panics on a nil getter; otherwise creates the group with an
      empty cache of the given budget and no peers, and registers it under
      `name`, replacing any group of that name. */
  function NewGroup<C, P>(reg: Registry<C, P>, name: string, cacheBytes: int, getter: Option<Getter>, ops: CacheOps<C>)
    : (r: Panicking<(Registry<C, P>, Group<C, P>)>)
    ensures r.Panic? <==> getter.None?
    ensures r.Panic? ==> r.message == "nil Getter"
    ensures r.Done? ==>
      var (reg', g) := r.value;
      && g.name == name && g.getter == getter.value
      && g.mainCache == ops.create(cacheBytes) && g.peers == None
      && name in reg' && reg'[name] == g
      && reg'.Keys == reg.Keys + {name}
      && (forall other | other in reg && other != name :: reg'[other] == reg[other])
  {
    if getter.None? then Panic("nil Getter")
    else
      var g := Group(name, getter.value, ops.create(cacheBytes), None);
      Done((reg[name := g], g))
  }

  /** `GetGroup`: the group registered under `name`, or nil. */
  function GetGroup<C, P>(reg: Registry<C, P>, name: string): (r: Option<Group<C, P>>)
    ensures r.Some? <==> name in reg
    ensures r.Some? ==> r.value == reg[name]
  {
    Lookup(reg, name)
  }

  /** `GetGroup(name).RegisterPeers(peers)`. The registry holds each group by
      reference, so the registration is what every later `GetGroup`, and
      every request routed to the group, sees. An unregistered name yields a
      nil group, and the registration dereferences it. */
  function RegisterPeersOf<C, P>(reg: Registry<C, P>, name: string, peers: Option<PeerPicker<P>>)
    : (r: Panicking<Registry<C, P>>)
    ensures r.Panic? <==> name !in reg || reg[name].peers.Some?
    ensures name !in reg ==> r == Panic(NilDereference)
    ensures name in reg && reg[name].peers.Some? ==> r == Panic("RegisterPeerPicker called more than once")
    ensures r.Done? ==>
      && r.value.Keys == reg.Keys
      && r.value[name] == reg[name].(peers := peers)
      && (forall other | other in reg && other != name :: r.value[other] == reg[other])
  {
    match GetGroup(reg, name)
    case None => Panic(NilDereference)
    case Some(g) =>
      match RegisterPeers(g, peers)
      case Panic(msg) => Panic(msg)
      case Done(g') => Done(reg[name := g'])
  }

  /** The start-up sequence of a peer: create a group, then register the
      picker on it. `GetGroup` then finds the group with the picker, and a
      second registration panics. */
  lemma NewGroupThenRegisterPeers<C, P>(reg: Registry<C, P>, name: string, cacheBytes: int, getter: Getter, ops: CacheOps<C>,
                                        p: PeerPicker<P>, q: Option<PeerPicker<P>>)
    ensures NewGroup(reg, name, cacheBytes, Some(getter), ops).Done?
    ensures var (reg1, g) := NewGroup(reg, name, cacheBytes, Some(getter), ops).value;
      && RegisterPeersOf(reg1, name, Some(p)).Done?
      && GetGroup(RegisterPeersOf(reg1, name, Some(p)).value, name) == Some(g.(peers := Some(p)))
      && RegisterPeersOf(RegisterPeersOf(reg1, name, Some(p)).value, name, q).Panic?
  {
  }

  /** After `NewGroup`, `GetGroup` finds the new group under its name and
      every other name still finds what it found before. */
  lemma NewGroupThenGetGroup<C, P>(reg: Registry<C, P>, name: string, cacheBytes: int, getter: Getter, ops: CacheOps<C>, other: string)
    ensures NewGroup(reg, name, cacheBytes, Some(getter), ops).Done?
    ensures GetGroup(NewGroup(reg, name, cacheBytes, Some(getter), ops).value.0, name)
         == Some(NewGroup(reg, name, cacheBytes, Some(getter), ops).value.1)
    ensures other != name ==>
      GetGroup(NewGroup(reg, name, cacheBytes, Some(getter), ops).value.0, other) == GetGroup(reg, other)
  {
  }
}
