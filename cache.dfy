/** The cache facade of cache.go: an LRU engine built on the first store,
    with a fixed byte budget and no eviction callback. */
module CacheFacade {
  import opened Common
  import opened Lru

  class LruCache {
    /** `nil` until the first `Set`. */
    var lru: Lru.Cache?
    const cacheBytes: int

    /** Once built, the engine is valid, has the facade's budget, no callback
        and has never been purged. */
    ghost predicate Valid()
      reads this, lru
    {
      lru != null ==> (lru.Valid() && lru.maxAllow == cacheBytes && !lru.onEvicted && lru.purged == 0)
    }

    /** The cached entries, most recently used first; none before the engine exists. */
    ghost function Entries(): seq<Entry>
      reads this, lru
    {
      if lru == null then [] else lru.ll
    }

    /** `LRUCache{cacheBytes: cacheBytes}`. */
    constructor (cacheBytes: int)
      ensures Valid() && lru == null && this.cacheBytes == cacheBytes && Entries() == []
    {
      lru := null;
      this.cacheBytes := cacheBytes;
    }

    /** Builds the engine if needed (the same one is kept afterwards) and stores the entry. */
    method Set(k: string, v: seq<byte>)
      requires Valid() && cacheBytes >= 0
      modifies this, lru
      ensures Valid() && lru != null
      ensures old(lru) != null ==> lru == old(lru)
      ensures old(lru) == null ==> fresh(lru)
      ensures Entries() == Trim(Put(old(Entries()), k, v), 0, cacheBytes)
    {
      if lru == null {
        var c, _ := Lru.New(cacheBytes, false);
        lru := c;
      }
      lru.Set(k, v);
    }

    /** A miss before the engine exists; otherwise the engine's lookup, which promotes a hit. */
    method Get(k: string) returns (v: seq<byte>, ok: bool)
      requires Valid()
      modifies lru
      ensures Valid()
      ensures ok == (k in KeysOf(old(Entries())))
      ensures ok ==> var i := IndexOf(old(Entries()), k);
        v == old(Entries())[i].val && Entries() == Promote(old(Entries()), i)
      ensures !ok ==> Entries() == old(Entries()) && v == []
    {
      if lru == null {
        return [], false;
      }
      v, ok := lru.Get(k);
    }

    /** The engine's removal; the engine must exist. */
    method Del(k: string) returns (ok: bool)
      requires Valid() && lru != null
      modifies lru
      ensures Valid()
      ensures ok == (k in KeysOf(old(Entries()))) && k !in KeysOf(Entries())
      ensures ok ==> Entries() == Without(old(Entries()), IndexOf(old(Entries()), k))
      ensures !ok ==> Entries() == old(Entries())
    {
      ok := lru.Del(k);
    }

    /** The engine's byte count: the sizes of the live entries, within a positive budget. */
    function Stats(): (usedBytes: int)
      reads this, lru
      requires Valid() && lru != null
      ensures usedBytes == Used(Entries())
      ensures cacheBytes > 0 ==> usedBytes <= cacheBytes
    {
      lru.usedBytes
    }
  }

  /** After `Set(k, v)`, `Get(k)` finds `v` at the front exactly when the budget
      is unbounded or the entry fits into it on its own. */
  lemma {:induction false} SetThenGet(es: seq<Entry>, k: string, v: seq<byte>, cacheBytes: int)
    requires Distinct(KeysOf(es))
    ensures var t := Trim(Put(es, k, v), 0, cacheBytes);
      && (k in KeysOf(t) <==> cacheBytes <= 0 || Size(Entry(k, v)) <= cacheBytes)
      && (k in KeysOf(t) ==> IndexOf(t, k) == 0 && t[0].val == v)
  {
    var p := Put(es, k, v);
    var t := Trim(p, 0, cacheBytes);
    PutShape(es, k, v);
    FrontSurvives(p, 0, cacheBytes);
    if t != [] {
      assert t[0] == p[0];
      assert KeysOf(t)[0] == k;
    }
  }

  /** get before any set, set then get, and a promotion by get. */
  method FacadeScenario() returns (before: bool, hit: seq<byte>, found: bool)
    ensures !before && found && hit == Utf8("v")
  {
    var c := new LruCache(0);
    var _, ok := c.Get("k");
    before := ok;
    c.Set("k", Utf8("v"));
    assert c.Entries() == [Entry("k", Utf8("v"))];
    hit, found := c.Get("k");
  }
}
