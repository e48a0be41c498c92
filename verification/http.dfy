/**
 * The HTTP peer pool (http.go): it owns the consistent-hash ring of peer
 * addresses, picks the peer for a key, and routes incoming
 * `/<basePath><group>/<key>` requests to the named group. The network
 * fetch (`httpGetter.Get`), the protobuf encoding and the response writer
 * are not modelled.
 */
module Http {
  import opened Wrappers
  import opened ByteViews
  import CH = ConsistentHash
  import G = Gache

  const DefaultBasePath := "/_gache/"
  const DefaultReplicas := 50

  const StatusOK := 200
  const StatusBadRequest := 400
  const StatusNotFound := 404
  const StatusInternalServerError := 500

  /** The client for one peer; it requests `baseURL + group + "/" + key`. */
  datatype HttpGetter = HttpGetter(baseURL: string)

  /** `HTTPPool`: this node's address, the URL prefix, the ring (nil until
      `Set`) and one getter per peer. */
  datatype HTTPPool = HTTPPool(
    self: string,
    basePath: string,
    peers: Option<CH.Ring>,
    httpGetters: map<string, HttpGetter>)

  /** `NewHTTPPool`. */
  function NewHTTPPool(self: string): (p: HTTPPool)
    ensures p.self == self && p.basePath == DefaultBasePath
    ensures p.peers == None && p.httpGetters == map[]
  {
    HTTPPool(self, DefaultBasePath, None, map[])
  }

  /** `Set(peers...)`: replaces the ring by a new one of 50 replicas holding
      exactly `peers` (hashed with the library default `crc`) and rebuilds the
      getter table. */
  function Set(p: HTTPPool, peers: seq<string>, crc: CH.Hash): (r: HTTPPool)
    ensures r.self == p.self && r.basePath == p.basePath
    ensures r.peers.Some?
    ensures CH.Valid(r.peers.value) && CH.OwnedBy(r.peers.value, set q | q in peers)
    ensures r.peers.value.hash == crc && r.peers.value.replicas == DefaultReplicas
    ensures |r.peers.value.keys| == DefaultReplicas * |peers|
    ensures r.httpGetters.Keys == set q | q in peers
    ensures forall q | q in peers :: r.httpGetters[q] == HttpGetter(q + p.basePath)
  {
    var ring := CH.New(DefaultReplicas, None, crc);
    CH.AddPreservesValid(ring, peers);
    CH.AddPreservesOwners(ring, peers, {});
    p.(peers := Some(CH.Add(ring, peers)),
       httpGetters := map q | q in peers :: HttpGetter(q + p.basePath))
  }

  /** The ring `Set` builds does not depend on the previous one. */
  lemma SetDiscardsPrevious(p: HTTPPool, q: HTTPPool, peers: seq<string>, crc: CH.Hash)
    requires p.basePath == q.basePath
    ensures Set(p, peers, crc).peers == Set(q, peers, crc).peers
    ensures Set(p, peers, crc).httpGetters == Set(q, peers, crc).httpGetters
  {
  }

  /** After `Set`, every replica of every peer is on the ring. */
  lemma SetPlacesEveryPeer(p: HTTPPool, peers: seq<string>, crc: CH.Hash, q: string, i: nat)
    requires q in peers && i < DefaultReplicas
    ensures crc(CH.Itoa(i) + q) as int in Set(p, peers, crc).peers.value.keys
    ensures crc(CH.Itoa(i) + q) as int in Set(p, peers, crc).peers.value.hashMap
  {
    CH.AddPlacesReplicas(CH.New(DefaultReplicas, None, crc), peers, q, i);
  }

  /** `PickPeer(key)`: the getter of the ring owner when that owner is
      neither "" nor this node; `(nil, false)` otherwise. A pool whose ring
      was never set dereferences nil and panics. A Go map lookup of a missing
      owner yields a nil getter, written `None`. */
  function PickPeer(p: HTTPPool, key: string): (r: Panicking<(Option<HttpGetter>, bool)>)
    ensures r.Panic? <==> p.peers.None?
    ensures r.Done? ==>
      var owner := CH.Get(p.peers.value, key);
      && (r.value.1 <==> owner != "" && owner != p.self)
      && (r.value.1 ==> r.value.0 == Lookup(p.httpGetters, owner))
      && (!r.value.1 ==> r.value.0 == None)
  {
    match p.peers
    case None => Panic(NilDereference)
    case Some(ring) =>
      var peer := CH.Get(ring, key);
      if peer != "" && peer != p.self then Done((Lookup(p.httpGetters, peer), true))
      else Done((None, false))
  }

  /** On a pool configured by `Set`, a picked peer is one of the configured
      peers other than this node, with its own getter; a key is handled
      locally only when its owner is this node (or the empty name). */
  lemma PickPeerAfterSet(p: HTTPPool, peers: seq<string>, crc: CH.Hash, key: string)
    requires |peers| > 0
    ensures PickPeer(Set(p, peers, crc), key).Done?
    ensures var r := PickPeer(Set(p, peers, crc), key).value;
      var owner := CH.Get(Set(p, peers, crc).peers.value, key);
      && owner in peers
      && (r.1 ==> owner != p.self && r.0 == Some(HttpGetter(owner + p.basePath)))
      && (!r.1 ==> owner == "" || owner == p.self)
  {
    var s := Set(p, peers, crc);
    CH.GetReturnsOwner(s.peers.value, key, set q | q in peers);
  }

  // ---------------------------------------------------------------------------
  // Routing of ServeHTTP

  predicate HasPrefix(s: string, prefix: string)
  {
    |prefix| <= |s| && s[..|prefix|] == prefix
  }

  /** Index of the first '/' in `s`, if any. */
  function FirstSlash(s: string): (r: Option<nat>)
    ensures r.None? <==> '/' !in s
    ensures r.Some? ==> r.value < |s| && s[r.value] == '/' && '/' !in s[..r.value]
  {
    if |s| == 0 then None
    else if s[0] == '/' then Some(0)
    else
      match FirstSlash(s[1..])
      case None => None
      case Some(i) =>
        assert s[..i + 1] == [s[0]] + s[1..][..i];
        Some(i + 1)
  }

  /** `strings.SplitN(s, "/", 2)`. */
  function SplitN2(s: string): (parts: seq<string>)
    ensures 1 <= |parts| <= 2
    ensures |parts| == 1 <==> '/' !in s
    ensures |parts| == 1 ==> parts[0] == s
    ensures |parts| == 2 ==> '/' !in parts[0] && parts[0] + "/" + parts[1] == s
  {
    match FirstSlash(s)
    case None => [s]
    case Some(i) =>
      assert s == s[..i] + "/" + s[i + 1..];
      [s[..i], s[i + 1..]]
  }

  /** What `ServeHTTP` writes: an error status with its message, or status
      200 with the value (its protobuf encoding is not modelled). */
  datatype Reply = Failure(status: int, message: string) | Success(value: ByteView)
  {
    function Status(): int
    {
      if Success? then StatusOK else status
    }
  }

  /** The reply and the registry afterwards (the group's cache may change). */
  datatype Served<C, P> = Served(reply: Panicking<Reply>, registry: G.Registry<C, P>)

  /** The routing decisions of `ServeHTTP`. */
  function Route<C, P>(p: HTTPPool, reg: G.Registry<C, P>, env: G.Env<C, P>, path: string): (s: Served<C, P>)
    ensures s.reply.Panic? <==> !HasPrefix(path, p.basePath)
    ensures s.reply.Panic? ==> s.reply.message == "HTTPPool serving unexpected path:" + path
    ensures s.reply.Done? && s.reply.value.Status() == StatusBadRequest ==> '/' !in path[|p.basePath|..]
    ensures s.registry.Keys == reg.Keys
    ensures s.reply.Panic? || s.reply.value.Status() in {StatusOK, StatusBadRequest, StatusNotFound, StatusInternalServerError}
  {
    if !HasPrefix(path, p.basePath) then
      Served(Panic("HTTPPool serving unexpected path:" + path), reg)
    else
      var parts := SplitN2(path[|p.basePath|..]);
      if |parts| != 2 then
        Served(Done(Failure(StatusBadRequest, "bad request")), reg)
      else
        var groupName := parts[0];
        var key := parts[1];
        match G.GetGroup(reg, groupName)
        case None => Served(Done(Failure(StatusNotFound, "no such group")), reg)
        case Some(group) =>
          var a := G.Get(group, env, key);
          var reg' := reg[groupName := a.group];
          if a.err.Some? then
            Served(Done(Failure(StatusInternalServerError, a.err.value.msg)), reg')
          else
            Served(Done(Success(a.view)), reg')
  }

  /** A path with no '/' after the prefix is a bad request. */
  lemma RouteWithoutKey<C, P>(p: HTTPPool, reg: G.Registry<C, P>, env: G.Env<C, P>, rest: string)
    requires '/' !in rest
    ensures Route(p, reg, env, p.basePath + rest) == Served(Done(Failure(StatusBadRequest, "bad request")), reg)
  {
    assert (p.basePath + rest)[..|p.basePath|] == p.basePath;
    assert (p.basePath + rest)[|p.basePath|..] == rest;
  }

  /** A request for `<basePath><group>/<key>` reaches group `group` with key
      `key`, even when `key` contains '/': 404 for an unknown group, 500 with
      the error text when the group's `Get` fails, 200 with its value
      otherwise. A group whose name contains '/' is out of reach of every peer
      request, because the path is split at its first '/'. */
  lemma RouteToGroup<C, P>(p: HTTPPool, reg: G.Registry<C, P>, env: G.Env<C, P>, group: string, key: string)
    requires '/' !in group
    ensures var s := Route(p, reg, env, p.basePath + group + "/" + key);
      && (group !in reg ==> s == Served(Done(Failure(StatusNotFound, "no such group")), reg))
      && (group in reg ==>
           var a := G.Get(reg[group], env, key);
           && s.registry == reg[group := a.group]
           && (a.err.Some? ==> s.reply == Done(Failure(StatusInternalServerError, a.err.value.msg)))
           && (a.err.None? ==> s.reply == Done(Success(a.view))))
  {
    var path := p.basePath + group + "/" + key;
    assert path[..|p.basePath|] == p.basePath;
    var rest := path[|p.basePath|..];
    assert rest == group + "/" + key;
    var parts := SplitN2(rest);
    assert |parts| == 2;
    SplitUnique(parts[0], parts[1], group, key);
  }

  lemma {:induction false} SlashAfter(x: string, y: string)
    requires '/' !in x
    ensures FirstSlash(x + "/" + y) == Some(|x|)
  {
    if |x| > 0 {
      assert (x + "/" + y)[1..] == x[1..] + "/" + y;
      SlashAfter(x[1..], y);
    }
  }

  /** A string splits at its first '/' in only one way. */
  lemma SplitUnique(a: string, b: string, c: string, d: string)
    requires '/' !in a && '/' !in c
    requires a + "/" + b == c + "/" + d
    ensures a == c && b == d
  {
    var s := a + "/" + b;
    SlashAfter(a, b);
    SlashAfter(c, d);
    assert a == s[..|a|] == c;
    assert b == s[|a| + 1..] == d;
  }
}
