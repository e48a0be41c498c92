/**
 * The consistent-hash ring (consistenthash/consistenthash.go). Every real
 * node is placed on the ring `replicas` times, at the hashes of
 * `Itoa(i) + node`; a key belongs to the owner of the first ring position at
 * or after the key's hash, wrapping around to the smallest position.
 */
module ConsistentHash {
  import opened Wrappers
  import opened Sorting

  /** Go's `uint32`. */
  type u32 = x: int | 0 <= x < 0x1_0000_0000

  /** The hash function over the bytes of a Go string. The library default
      (CRC-32, IEEE polynomial) is not modelled; callers pass it in. */
  type Hash = string -> u32

  /** `Map`: the hash, the replica factor, the ring of virtual-node hashes and
      the owner of every virtual node. */
  datatype Ring = Ring(hash: Hash, replicas: int, keys: seq<int>, hashMap: map<int, string>)

  // ---------------------------------------------------------------------------
  // strconv.Itoa on non-negative integers

  function DigitChar(d: nat): (c: char)
    requires d < 10
    ensures '0' <= c <= '9'
  {
    (48 + d) as char
  }

  /** Decimal representation of `i`, as `strconv.Itoa` writes it. */
  function Itoa(i: nat): (s: string)
    ensures |s| > 0
    ensures forall k | 0 <= k < |s| :: '0' <= s[k] <= '9'
  {
    if i < 10 then [DigitChar(i)] else Itoa(i / 10) + [DigitChar(i % 10)]
  }

  /** Reads a string of decimal digits back as a number. */
  function Atoi(s: string): nat
    requires forall k | 0 <= k < |s| :: '0' <= s[k] <= '9'
  {
    if |s| == 0 then 0 else Atoi(s[..|s| - 1]) * 10 + (s[|s| - 1] as int - 48)
  }

  /** Distinct replica indices give distinct prefixes. */
  lemma {:induction false} ItoaRoundTrip(i: nat)
    ensures Atoi(Itoa(i)) == i
  {
    if i >= 10 {
      var s := Itoa(i);
      assert s[..|s| - 1] == Itoa(i / 10);
      ItoaRoundTrip(i / 10);
    }
  }

  // ---------------------------------------------------------------------------
  // Well-formed rings

  /** The set of positions on the ring. */
  function KeySet(keys: seq<int>): set<int>
  {
    set k | k in keys
  }

  /** The shape every ring built by `New` and `Add` has: the positions are
      sorted and the owner table covers exactly those positions. */
  ghost predicate Valid(m: Ring)
  {
    && Sorted(m.keys)
    && m.hashMap.Keys == KeySet(m.keys)
  }

  /** Every virtual node belongs to one of `nodes`. */
  ghost predicate OwnedBy(m: Ring, nodes: set<string>)
  {
    forall h | h in m.hashMap :: m.hashMap[h] in nodes
  }

  // ---------------------------------------------------------------------------
  // New

  /** `New(replicas, f)`: a nil `f` installs the default hash `crc`. */
  function New(replicas: int, f: Option<Hash>, crc: Hash): (m: Ring)
    ensures m.replicas == replicas
    ensures f.Some? ==> m.hash == f.value
    ensures f.None? ==> m.hash == crc
    ensures m.keys == [] && m.hashMap == map[]
    ensures Valid(m) && OwnedBy(m, {})
  {
    Ring(if f.Some? then f.value else crc, replicas, [], map[])
  }

  // ---------------------------------------------------------------------------
  // Add

  /** The loop `for i := 0; i < m.replicas; i++` runs this many times. */
  function ReplicaCount(replicas: int): nat
  {
    if replicas < 0 then 0 else replicas
  }

  /** The virtual nodes of one real node, in the order the loop visits them. */
  function NodeReplicas(hash: Hash, replicas: int, node: string): (vs: seq<(int, string)>)
    ensures |vs| == ReplicaCount(replicas)
    ensures forall i | 0 <= i < |vs| :: vs[i] == (hash(Itoa(i) + node) as int, node)
  {
    seq(ReplicaCount(replicas), i requires 0 <= i => (hash(Itoa(i) + node) as int, node))
  }

  /** The virtual nodes of all `nodes`, in the order `Add` appends them. */
  function VirtualNodes(hash: Hash, replicas: int, nodes: seq<string>): (vs: seq<(int, string)>)
  {
    if |nodes| == 0 then []
    else NodeReplicas(hash, replicas, nodes[0]) + VirtualNodes(hash, replicas, nodes[1..])
  }

  function Hashes(vs: seq<(int, string)>): (hs: seq<int>)
    ensures |hs| == |vs|
    ensures forall k | 0 <= k < |vs| :: hs[k] == vs[k].0
  {
    seq(|vs|, k requires 0 <= k < |vs| => vs[k].0)
  }

  function HashSet(vs: seq<(int, string)>): set<int>
  {
    set k | 0 <= k < |vs| :: vs[k].0
  }

  function OwnerSet(vs: seq<(int, string)>): set<string>
  {
    set k | 0 <= k < |vs| :: vs[k].1
  }

  /** No later virtual node has the same hash as `vs[k]`. */
  ghost predicate LastWith(vs: seq<(int, string)>, k: int)
    requires 0 <= k < |vs|
  {
    forall j | k < j < |vs| :: vs[j].0 != vs[k].0
  }

  /** `m.hashMap[hash] = key` for each virtual node in turn: a later virtual
      node with the same hash overwrites an earlier one. */
  function Record(hm: map<int, string>, vs: seq<(int, string)>): (r: map<int, string>)
    ensures r.Keys == hm.Keys + HashSet(vs)
    ensures forall h | h in hm && h !in HashSet(vs) :: r[h] == hm[h]
    ensures forall h | h in HashSet(vs) :: r[h] in OwnerSet(vs)
    ensures forall k | 0 <= k < |vs| && LastWith(vs, k) :: r[vs[k].0] == vs[k].1
    decreases |vs|
  {
    if |vs| == 0 then hm
    else
      var r := Record(hm[vs[0].0 := vs[0].1], vs[1..]);
      RecordStep(hm, vs, r);
      r
  }

  lemma RecordStep(hm: map<int, string>, vs: seq<(int, string)>, r: map<int, string>)
    requires |vs| > 0
    requires r.Keys == hm[vs[0].0 := vs[0].1].Keys + HashSet(vs[1..])
    requires forall h | h in hm[vs[0].0 := vs[0].1] && h !in HashSet(vs[1..]) :: r[h] == hm[vs[0].0 := vs[0].1][h]
    requires forall h | h in HashSet(vs[1..]) :: r[h] in OwnerSet(vs[1..])
    requires forall k | 0 <= k < |vs[1..]| && LastWith(vs[1..], k) :: r[vs[1..][k].0] == vs[1..][k].1
    ensures r.Keys == hm.Keys + HashSet(vs)
    ensures forall h | h in hm && h !in HashSet(vs) :: r[h] == hm[h]
    ensures forall h | h in HashSet(vs) :: r[h] in OwnerSet(vs)
    ensures forall k | 0 <= k < |vs| && LastWith(vs, k) :: r[vs[k].0] == vs[k].1
  {
    var tail := vs[1..];
    assert HashSet(vs) == {vs[0].0} + HashSet(tail) by {
      forall h | h in HashSet(vs) ensures h in {vs[0].0} + HashSet(tail) {
        var k :| 0 <= k < |vs| && vs[k].0 == h;
        if k > 0 { assert tail[k - 1].0 == h; }
      }
    }
    assert OwnerSet(tail) <= OwnerSet(vs) by {
      forall o | o in OwnerSet(tail) ensures o in OwnerSet(vs) {
        var k :| 0 <= k < |tail| && tail[k].1 == o;
        assert vs[k + 1].1 == o;
      }
    }
    assert vs[0].1 in OwnerSet(vs);
    forall k | 0 <= k < |vs| && LastWith(vs, k)
      ensures r[vs[k].0] == vs[k].1
    {
      if k == 0 {
        RecordHead(hm[vs[0].0 := vs[0].1], vs, r);
      } else {
        RecordTail(vs, r, k);
      }
    }
  }

  lemma RecordHead(hm': map<int, string>, vs: seq<(int, string)>, r: map<int, string>)
    requires |vs| > 0 && LastWith(vs, 0)
    requires vs[0].0 in hm' && hm'[vs[0].0] == vs[0].1
    requires r.Keys == hm'.Keys + HashSet(vs[1..])
    requires forall h | h in hm' && h !in HashSet(vs[1..]) :: r[h] == hm'[h]
    ensures vs[0].0 in r && r[vs[0].0] == vs[0].1
  {
    var tail := vs[1..];
    var h := vs[0].0;
    assert h !in HashSet(tail) by {
      forall j | 0 <= j < |tail| ensures tail[j].0 != h {
        assert tail[j] == vs[j + 1];
      }
    }
    assert r[h] == hm'[h];
  }

  lemma RecordTail(vs: seq<(int, string)>, r: map<int, string>, k: int)
    requires 0 < k < |vs| && LastWith(vs, k)
    requires HashSet(vs[1..]) <= r.Keys
    requires forall k | 0 <= k < |vs[1..]| && LastWith(vs[1..], k) :: r[vs[1..][k].0] == vs[1..][k].1
    ensures vs[k].0 in r && r[vs[k].0] == vs[k].1
  {
    var tail := vs[1..];
    assert tail[k - 1] == vs[k];
    assert vs[k].0 in HashSet(tail);
    assert LastWith(tail, k - 1) by {
      forall j | k - 1 < j < |tail| ensures tail[j].0 != tail[k - 1].0 {
        assert tail[j] == vs[j + 1];
      }
    }
  }

  /** `Add(nodes...)`: appends every virtual node of `nodes`, records its
      owner, and re-sorts the ring. */
  function Add(m: Ring, nodes: seq<string>): (r: Ring)
    ensures r.hash == m.hash && r.replicas == m.replicas
    ensures |r.keys| == |m.keys| + ReplicaCount(m.replicas) * |nodes|
    ensures Sorted(r.keys)
    ensures multiset(m.keys) <= multiset(r.keys)
  {
    var vs := VirtualNodes(m.hash, m.replicas, nodes);
    VirtualNodesLength(m.hash, m.replicas, nodes);
    var keys := Sort(m.keys + Hashes(vs));
    assert |keys| == |multiset(keys)| == |m.keys + Hashes(vs)|;
    m.(keys := keys, hashMap := Record(m.hashMap, vs))
  }

  /** The ring and owner table `Add` produces, in terms of its virtual nodes. */
  lemma AddParts(m: Ring, nodes: seq<string>)
    ensures Add(m, nodes).keys == Sort(m.keys + Hashes(VirtualNodes(m.hash, m.replicas, nodes)))
    ensures Add(m, nodes).hashMap == Record(m.hashMap, VirtualNodes(m.hash, m.replicas, nodes))
    ensures Add(m, nodes) == m.(keys := Add(m, nodes).keys, hashMap := Add(m, nodes).hashMap)
  {
  }

  lemma {:induction false} VirtualNodesLength(hash: Hash, replicas: int, nodes: seq<string>)
    ensures |VirtualNodes(hash, replicas, nodes)| == ReplicaCount(replicas) * |nodes|
  {
    if |nodes| > 0 {
      VirtualNodesLength(hash, replicas, nodes[1..]);
      calc {
        |VirtualNodes(hash, replicas, nodes)|;
        ReplicaCount(replicas) + ReplicaCount(replicas) * (|nodes| - 1);
        { assert ReplicaCount(replicas) * (|nodes| - 1) == ReplicaCount(replicas) * |nodes| - ReplicaCount(replicas); }
        ReplicaCount(replicas) * |nodes|;
      }
    }
  }

  /** Every virtual node `Add` creates is owned by one of the added nodes. */
  lemma {:induction false} VirtualNodesOwners(hash: Hash, replicas: int, nodes: seq<string>)
    ensures forall o | o in OwnerSet(VirtualNodes(hash, replicas, nodes)) :: o in nodes
  {
    var vs := VirtualNodes(hash, replicas, nodes);
    if |nodes| > 0 {
      var head := NodeReplicas(hash, replicas, nodes[0]);
      var rest := VirtualNodes(hash, replicas, nodes[1..]);
      VirtualNodesOwners(hash, replicas, nodes[1..]);
      forall o | o in OwnerSet(vs) ensures o in nodes {
        var k :| 0 <= k < |vs| && vs[k].1 == o;
        if k >= |head| {
          assert rest[k - |head|].1 == o;
          assert o in OwnerSet(rest);
        }
      }
    }
  }

  /** Every replica of every added node appears among the virtual nodes. */
  lemma {:induction false} VirtualNodesContain(hash: Hash, replicas: int, nodes: seq<string>, n: string, i: nat)
    requires n in nodes && i < ReplicaCount(replicas)
    ensures (hash(Itoa(i) + n) as int, n) in VirtualNodes(hash, replicas, nodes)
  {
    var head := NodeReplicas(hash, replicas, nodes[0]);
    if nodes[0] == n {
      assert head[i] == (hash(Itoa(i) + n) as int, n);
    } else {
      VirtualNodesContain(hash, replicas, nodes[1..], n, i);
    }
  }

  lemma {:induction false} VirtualNodesAppend(hash: Hash, replicas: int, a: seq<string>, b: seq<string>)
    ensures VirtualNodes(hash, replicas, a + b) == VirtualNodes(hash, replicas, a) + VirtualNodes(hash, replicas, b)
  {
    if |a| > 0 {
      assert (a + b)[1..] == a[1..] + b;
      VirtualNodesAppend(hash, replicas, a[1..], b);
    } else {
      assert a + b == b;
    }
  }

  lemma {:induction false} RecordAppend(hm: map<int, string>, va: seq<(int, string)>, vb: seq<(int, string)>)
    ensures Record(Record(hm, va), vb) == Record(hm, va + vb)
    decreases |va|
  {
    if |va| > 0 {
      assert (va + vb)[1..] == va[1..] + vb;
      RecordAppend(hm[va[0].0 := va[0].1], va[1..], vb);
    } else {
      assert va + vb == vb;
    }
  }

  lemma KeySetOfMultiset(a: seq<int>, b: seq<int>)
    requires multiset(a) == multiset(b)
    ensures KeySet(a) == KeySet(b)
  {
    forall x ensures x in a <==> x in b {
      assert x in a <==> x in multiset(a);
      assert x in b <==> x in multiset(b);
    }
  }

  lemma KeySetOfHashes(vs: seq<(int, string)>)
    ensures KeySet(Hashes(vs)) == HashSet(vs)
  {
    forall h | h in HashSet(vs) ensures h in KeySet(Hashes(vs)) {
      var k :| 0 <= k < |vs| && vs[k].0 == h;
      assert Hashes(vs)[k] == h;
    }
  }

  /** After `Add`, the ring positions are the old ones plus the new virtual
      nodes' hashes. */
  lemma AddKeySet(m: Ring, nodes: seq<string>)
    ensures KeySet(Add(m, nodes).keys) == KeySet(m.keys) + HashSet(VirtualNodes(m.hash, m.replicas, nodes))
  {
    var vs := VirtualNodes(m.hash, m.replicas, nodes);
    KeySetOfMultiset(Add(m, nodes).keys, m.keys + Hashes(vs));
    KeySetOfHashes(vs);
    assert KeySet(m.keys + Hashes(vs)) == KeySet(m.keys) + KeySet(Hashes(vs));
  }

  /** `Add` keeps a ring well formed. */
  lemma AddPreservesValid(m: Ring, nodes: seq<string>)
    requires Valid(m)
    ensures Valid(Add(m, nodes))
  {
    AddKeySet(m, nodes);
  }

  /** After `Add` every virtual node belongs to a node added so far. */
  lemma AddPreservesOwners(m: Ring, nodes: seq<string>, owners: set<string>)
    requires OwnedBy(m, owners)
    ensures OwnedBy(Add(m, nodes), owners + set n | n in nodes)
  {
    VirtualNodesOwners(m.hash, m.replicas, nodes);
  }

  /** Additivity: the previous positions remain, and every replica of every
      added node is on the ring with an owner recorded. */
  lemma AddPlacesReplicas(m: Ring, nodes: seq<string>, n: string, i: nat)
    requires n in nodes && i < ReplicaCount(m.replicas)
    ensures multiset(m.keys) <= multiset(Add(m, nodes).keys)
    ensures m.hash(Itoa(i) + n) as int in Add(m, nodes).keys
    ensures m.hash(Itoa(i) + n) as int in Add(m, nodes).hashMap
  {
    var vs := VirtualNodes(m.hash, m.replicas, nodes);
    VirtualNodesContain(m.hash, m.replicas, nodes, n, i);
    var k :| 0 <= k < |vs| && vs[k] == (m.hash(Itoa(i) + n) as int, n);
    assert m.hash(Itoa(i) + n) as int in HashSet(vs);
    AddKeySet(m, nodes);
  }

  /** On a hash collision the later virtual node owns the position. */
  lemma AddLastWriterWins(m: Ring, nodes: seq<string>, k: nat)
    requires k < |VirtualNodes(m.hash, m.replicas, nodes)|
    requires LastWith(VirtualNodes(m.hash, m.replicas, nodes), k)
    ensures Add(m, nodes).hashMap[VirtualNodes(m.hash, m.replicas, nodes)[k].0]
         == VirtualNodes(m.hash, m.replicas, nodes)[k].1
  {
  }

  lemma HashesAppend(va: seq<(int, string)>, vb: seq<(int, string)>)
    ensures Hashes(va + vb) == Hashes(va) + Hashes(vb)
  {
  }

  lemma AddTwiceKeys(m: Ring, a: seq<string>, b: seq<string>)
    ensures Add(Add(m, a), b).keys == Add(m, a + b).keys
  {
    var va := VirtualNodes(m.hash, m.replicas, a);
    var vb := VirtualNodes(m.hash, m.replicas, b);
    VirtualNodesAppend(m.hash, m.replicas, a, b);
    HashesAppend(va, vb);
    AddParts(m, a);
    AddParts(Add(m, a), b);
    AddParts(m, a + b);
    SortTwice(m.keys, Hashes(va), Hashes(vb));
  }

  lemma AddTwiceOwners(m: Ring, a: seq<string>, b: seq<string>)
    ensures Add(Add(m, a), b).hashMap == Add(m, a + b).hashMap
  {
    var va := VirtualNodes(m.hash, m.replicas, a);
    var vb := VirtualNodes(m.hash, m.replicas, b);
    VirtualNodesAppend(m.hash, m.replicas, a, b);
    RecordAppend(m.hashMap, va, vb);
    AddParts(m, a);
    AddParts(Add(m, a), b);
    AddParts(m, a + b);
  }

  /** Two `Add` calls build the same ring as one call with both node lists. */
  lemma AddTwice(m: Ring, a: seq<string>, b: seq<string>)
    ensures Add(Add(m, a), b) == Add(m, a + b)
  {
    AddTwiceKeys(m, a, b);
    AddTwiceOwners(m, a, b);
    AddParts(Add(m, a), b);
    AddParts(m, a + b);
  }

  // ---------------------------------------------------------------------------
  // Get

  /** The least index whose position is at or after `h`, or `|keys|` if none:
      what `sort.Search` computes on a sorted ring. */
  function FirstAtLeast(keys: seq<int>, h: int): (i: nat)
    ensures i <= |keys|
    ensures forall j | 0 <= j < i :: keys[j] < h
    ensures i < |keys| ==> keys[i] >= h
  {
    if |keys| == 0 || keys[0] >= h then 0 else 1 + FirstAtLeast(keys[1..], h)
  }

  /** `Get(key)`: the owner of the first position at or after the key's hash,
      wrapping to position 0; "" on an empty ring. A missing owner reads as
      Go's zero value "". */
  function Get(m: Ring, key: string): (owner: string)
    ensures |m.keys| == 0 ==> owner == ""
  {
    if |m.keys| == 0 then ""
    else
      var idx := FirstAtLeast(m.keys, m.hash(key) as int);
      var rem := idx % |m.keys|;
      if m.keys[rem] in m.hashMap then m.hashMap[m.keys[rem]] else ""
  }

  /** `idx % total` with `idx <= total` wraps only the past-the-end index. */
  lemma WrapIndex(idx: nat, total: nat)
    requires 0 < total && idx <= total
    ensures idx % total == if idx < total then idx else 0
  {
  }

  /** The least index with `keys[i] >= hash(key)` selects the owner. */
  lemma GetSelectsFirstAtLeast(m: Ring, key: string, i: nat)
    requires Valid(m)
    requires i < |m.keys| && m.keys[i] >= m.hash(key) as int
    requires forall j | 0 <= j < i :: m.keys[j] < m.hash(key) as int
    ensures Get(m, key) == m.hashMap[m.keys[i]]
  {
    WrapIndex(FirstAtLeast(m.keys, m.hash(key) as int), |m.keys|);
    assert m.keys[i] in KeySet(m.keys);
  }

  /** A hash beyond every position wraps around to position 0. */
  lemma GetWrapsAround(m: Ring, key: string)
    requires Valid(m) && |m.keys| > 0
    requires forall j | 0 <= j < |m.keys| :: m.keys[j] < m.hash(key) as int
    ensures Get(m, key) == m.hashMap[m.keys[0]]
  {
    WrapIndex(FirstAtLeast(m.keys, m.hash(key) as int), |m.keys|);
    assert m.keys[0] in KeySet(m.keys);
  }

  /** The ring as a circle: `k` is the first position clockwise from `h`. */
  ghost predicate Clockwise(ks: set<int>, h: int, k: int)
  {
    && k in ks
    && if exists x | x in ks :: h <= x
       then h <= k && forall x | x in ks && h <= x :: k <= x
       else forall x | x in ks :: k <= x
  }

  lemma ClockwiseUnique(ks: set<int>, h: int, k1: int, k2: int)
    requires Clockwise(ks, h, k1) && Clockwise(ks, h, k2)
    ensures k1 == k2
  {
  }

  /** The first position clockwise in a larger ring that is also in a smaller
      one is first clockwise there too. */
  lemma ClockwiseSubset(small: set<int>, big: set<int>, h: int, k: int)
    requires small <= big && k in small && Clockwise(big, h, k)
    ensures Clockwise(small, h, k)
  {
  }

  /** On a well-formed, non-empty ring `Get` returns the owner of the first
      position clockwise from the key's hash. */
  lemma GetIsClockwiseOwner(m: Ring, key: string, k: int)
    requires Valid(m) && Clockwise(KeySet(m.keys), m.hash(key) as int, k)
    ensures Get(m, key) == m.hashMap[k]
  {
    assert |m.keys| > 0 by {
      var j :| 0 <= j < |m.keys| && m.keys[j] == k;
    }
    var sel := ClockwiseExists(m, key);
    ClockwiseUnique(KeySet(m.keys), m.hash(key) as int, k, sel);
  }

  /** On a non-empty ring some position is first clockwise, and `Get`
      returns its owner. */
  lemma ClockwiseExists(m: Ring, key: string) returns (k: int)
    requires Valid(m) && |m.keys| > 0
    ensures Clockwise(KeySet(m.keys), m.hash(key) as int, k)
    ensures k in m.hashMap && Get(m, key) == m.hashMap[k]
  {
    var h := m.hash(key) as int;
    var i := FirstAtLeast(m.keys, h);
    WrapIndex(i, |m.keys|);
    k := m.keys[i % |m.keys|];
    assert k in KeySet(m.keys);
    if i < |m.keys| {
      forall x | x in KeySet(m.keys) && h <= x ensures k <= x {
        var j :| 0 <= j < |m.keys| && m.keys[j] == x;
      }
    } else {
      forall x | x in KeySet(m.keys) ensures k <= x {
        var j :| 0 <= j < |m.keys| && m.keys[j] == x;
      }
    }
  }

  /** On a non-empty ring `Get` returns a node passed to an earlier `Add`. */
  lemma GetReturnsOwner(m: Ring, key: string, owners: set<string>)
    requires Valid(m) && OwnedBy(m, owners) && |m.keys| > 0
    ensures Get(m, key) in owners
  {
    var k := ClockwiseExists(m, key);
  }

  /** Growing a ring moves a key only when the first position clockwise is
      one of the new positions. */
  lemma GrowMovesKeysOnlyToNewOwners(m: Ring, m': Ring, added: set<int>, owners: set<string>, key: string)
    requires Valid(m) && Valid(m') && m'.hash == m.hash
    requires KeySet(m'.keys) == KeySet(m.keys) + added
    requires forall h | h in m.hashMap && h !in added :: h in m'.hashMap && m'.hashMap[h] == m.hashMap[h]
    requires forall h | h in added :: h in m'.hashMap && m'.hashMap[h] in owners
    ensures Get(m', key) == Get(m, key) || Get(m', key) in owners
  {
    if |m'.keys| > 0 {
      var k := ClockwiseExists(m', key);
      GetIsClockwiseOwner(m', key, k);
      if k !in added {
        ClockwiseSubset(KeySet(m.keys), KeySet(m'.keys), m.hash(key) as int, k);
        GetIsClockwiseOwner(m, key, k);
      }
    }
  }

  /** Bounded disruption: adding nodes moves a key only onto one of the added
      nodes; every other key keeps its owner. */
  lemma AddMovesKeysOnlyToNewNodes(m: Ring, nodes: seq<string>, key: string)
    requires Valid(m)
    ensures Get(Add(m, nodes), key) == Get(m, key) || Get(Add(m, nodes), key) in nodes
  {
    var vs := VirtualNodes(m.hash, m.replicas, nodes);
    AddPreservesValid(m, nodes);
    AddKeySet(m, nodes);
    VirtualNodesOwners(m.hash, m.replicas, nodes);
    GrowMovesKeysOnlyToNewOwners(m, Add(m, nodes), HashSet(vs), (set n | n in nodes), key);
  }

  // ---------------------------------------------------------------------------
  // The lookup as the source performs it, with sort.Search

  /** `sort.Search(len(keys), func(i) bool { return keys[i] >= h })`. */
  method Search(keys: seq<int>, h: int) returns (idx: nat)
    requires Sorted(keys)
    ensures idx <= |keys|
    ensures forall j | 0 <= j < idx :: keys[j] < h
    ensures idx < |keys| ==> keys[idx] >= h
  {
    var i, j := 0, |keys|;
    while i < j
      invariant 0 <= i <= j <= |keys|
      invariant forall k | 0 <= k < i :: keys[k] < h
      invariant forall k | j <= k < |keys| :: keys[k] >= h
    {
      var mid := (i + j) / 2;
      if keys[mid] < h {
        i := mid + 1;
      } else {
        j := mid;
      }
    }
    idx := i;
  }

  /** `Map.Get` with the binary search; agrees with `Get` on sorted rings. */
  method GetBySearch(m: Ring, key: string) returns (owner: string)
    requires Sorted(m.keys)
    ensures owner == Get(m, key)
  {
    if |m.keys| == 0 {
      return "";
    }
    var hash := m.hash(key) as int;
    var idx := Search(m.keys, hash);
    var total := |m.keys|;
    var rem := idx % total;
    owner := if m.keys[rem] in m.hashMap then m.hashMap[m.keys[rem]] else "";
  }
}
