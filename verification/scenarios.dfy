/**
 * The example deployment of examples/main.go: a "scores" group whose loader
 * reads a three-entry table, run against a cache that never evicts.
 */
module Scenarios {
  import opened Wrappers
  import opened ByteViews
  import opened Gache

  /** The slow database of the example. */
  const Db: map<string, string> := map["Tom" := "630", "Jack" := "589", "Sam" := "567"]

  /** Every entry of the table is a Go string of ASCII digits. */
  lemma DbHoldsByteStrings(key: string)
    requires key in Db
    ensures IsByteString(Db[key])
  {
    assert key == "Tom" || key == "Jack" || key == "Sam";
  }

  /** The example's loader: the table entry, or "<key> not exist". */
  function DbGetter(key: string): Result<seq<byte>, Error>
  {
    if key in Db then
      DbHoldsByteStrings(key);
      Ok(FromString(Db[key]).b)
    else Err(Error(key + " not exist"))
  }

  /** A cache fixture that keeps every entry; it stands in for the cache
      wrapper, whose eviction policy is not part of this model. */
  function KeepAll(): CacheOps<map<string, ByteView>>
  {
    CacheOps(
      (budget: int) => map[],
      (c: map<string, ByteView>, k: string) => (Lookup(c, k), c),
      (c: map<string, ByteView>, k: string, v: ByteView) => c[k := v])
  }

  /** No peer is ever registered in these scenarios. */
  function NoNetwork(): Env<map<string, ByteView>, string>
  {
    Env(KeepAll(), (peer: string, req: Request) => Err(Error("no network")))
  }

  function Scores(): Group<map<string, ByteView>, string>
  {
    Group("scores", DbGetter, map[], None)
  }

  type Registry = Gache.Registry<map<string, ByteView>, string>

  const NoGroups: Registry := map[]

  /** `NewGroup("scores", 2<<10, getter)` registers the scores group. */
  lemma CreateScores()
    ensures NewGroup(NoGroups, "scores", 2048, Some(DbGetter), KeepAll()).Done?
    ensures NewGroup(NoGroups, "scores", 2048, Some(DbGetter), KeepAll()).value.1 == Scores()
    ensures GetGroup(NewGroup(NoGroups, "scores", 2048, Some(DbGetter), KeepAll()).value.0, "scores") == Some(Scores())
  {
  }

  /** The first `Get("Tom")` loads "630" and caches it; the second answers
      from the cache without calling the loader. */
  lemma TomIsLoadedOnceThenCached()
    ensures var a1 := Get(Scores(), NoNetwork(), "Tom");
      && a1.err == None && String(a1.view) == "630"
      && a1.log == [CacheGet("Tom"), GetterGet("Tom"), CacheAdd("Tom", a1.view)]
      && var a2 := Get(a1.group, NoNetwork(), "Tom");
         a2.err == None && a2.view == a1.view && a2.log == [CacheGet("Tom")]
  {
    var v := FromString("630");
    BytesThenString("630");
    assert DbGetter("Tom") == Ok(v.b);
    LoadedValueServedFromCache(Scores(), NoNetwork(), "Tom");
  }

  /** A failed load is not cached: every `Get("Unknown")` asks the loader. */
  lemma UnknownIsNeverCached()
    ensures var a1 := Get(Scores(), NoNetwork(), "Unknown");
      && a1.err == Some(Error("Unknown not exist")) && a1.view == Empty
      && a1.log == [CacheGet("Unknown"), GetterGet("Unknown")]
      && a1.group == Scores()
      && Get(a1.group, NoNetwork(), "Unknown") == a1
  {
    assert "Unknown" !in Db;
    assert "Unknown" + " not exist" == "Unknown not exist";
  }

  /** The empty key is rejected before any collaborator is called. */
  lemma EmptyKeyIsRejected()
    ensures Get(Scores(), NoNetwork(), "").err == Some(Error("key is required"))
    ensures Get(Scores(), NoNetwork(), "").log == []
  {
  }
}
