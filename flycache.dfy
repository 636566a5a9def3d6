/** Groups of flycache.go: a named, read-through cache in front of a data
    source, optionally consulting peers first, and the registry of groups. */
module FlyCache {
  import opened Common
  import opened Lru
  import CacheFacade

  /** `Getter`: loads a key's bytes from the data source, or fails with a message. */
  type Getter = string -> Result<seq<byte>, string>

  /** `PeerPicker`: `pick(key)` names the peer owning `key` (none for this node
      itself), and `fetch(peer, group, key)` is that peer's `PeerGetter.Get`. */
  datatype PeerPicker = PeerPicker(
    pick: string -> Option<string>,
    fetch: (string, string, string) -> Result<seq<byte>, string>)

  const KeyRequired: string := "key is required"
  const PeersTwice: string := "RegisterPeerPicker called more than once"
  const NilGetter: string := "nil getter"

  /** The peer `load` asks for `key`, if any. */
  function PeerFor(peers: Option<PeerPicker>, key: string): Option<string>
  {
    if peers.Some? then peers.value.pick(key) else None
  }

  /** The answer of the peer asked, if one is asked. */
  function PeerAnswer(peers: Option<PeerPicker>, group: string, key: string): Option<Result<seq<byte>, string>>
  {
    match PeerFor(peers, key)
    case None => None
    case Some(p) => Some(peers.value.fetch(p, group, key))
  }

  /** A miss is served by a peer: one was asked and answered without error. */
  predicate FromPeer(peers: Option<PeerPicker>, group: string, key: string)
  {
    PeerAnswer(peers, group, key).Some? && PeerAnswer(peers, group, key).value.Ok?
  }

  /** What `load` returns: the peer's bytes, or else whatever the getter returns. */
  function LoadResult(peers: Option<PeerPicker>, group: string, getter: Getter, key: string)
    : Result<seq<byte>, string>
  {
    if FromPeer(peers, group, key) then PeerAnswer(peers, group, key).value else getter(key)
  }

  /** Peer failures never surface: `load` fails exactly when no peer served the
      key and the getter failed, and then with the getter's own error. */
  lemma {:induction false} LoadFailsOnlyWithGetter(peers: Option<PeerPicker>, group: string, getter: Getter, key: string)
    ensures LoadResult(peers, group, getter, key).Err?
        <==> !FromPeer(peers, group, key) && getter(key).Err?
    ensures LoadResult(peers, group, getter, key).Err? ==> LoadResult(peers, group, getter, key) == getter(key)
  {
  }

  /** Without peers, or when the picker picks none, `load` is the getter. */
  lemma {:induction false} LoadWithoutPeer(peers: Option<PeerPicker>, group: string, getter: Getter, key: string)
    requires PeerFor(peers, key).None?
    ensures LoadResult(peers, group, getter, key) == getter(key)
  {
  }

  class Group {
    const name: string
    const getter: Getter
    const mainCache: CacheFacade.LruCache
    var peers: Option<PeerPicker>
    /** Keys handed to the getter, in call order. */
    ghost var loads: seq<string>
    /** (peer, key) pairs fetched from peers, in call order. */
    ghost var fetches: seq<(string, string)>

    ghost predicate Valid()
      reads this, mainCache, mainCache.lru
    {
      mainCache.Valid() && mainCache.cacheBytes >= 0
    }

    /** The group's cached entries, most recently used first. */
    ghost function Entries(): seq<Entry>
      reads this, mainCache, mainCache.lru
    {
      mainCache.Entries()
    }

    constructor (name: string, cacheBytes: int, getter: Getter)
      requires cacheBytes >= 0
      ensures Valid() && fresh(mainCache) && mainCache.lru == null
      ensures this.name == name && this.getter == getter && mainCache.cacheBytes == cacheBytes
      ensures peers.None? && loads == [] && fetches == [] && Entries() == []
    {
      this.name := name;
      this.getter := getter;
      mainCache := new CacheFacade.LruCache(cacheBytes);
      peers := None;
      loads := [];
      fetches := [];
    }

    /** Installs the peer picker; a second registration is refused. */
    method RegisterPeers(p: PeerPicker) returns (err: Option<string>)
      modifies this`peers
      ensures old(peers).None? ==> err.None? && peers == Some(p)
      ensures old(peers).Some? ==> err == Some(PeersTwice) && peers == old(peers)
    {
      if peers.Some? {
        return Some(PeersTwice);
      }
      peers := Some(p);
      err := None;
    }

    /** The read-through lookup: an empty key is refused; a cached value is
        returned (and promoted) without loading; a miss is loaded. */
    method Get(key: string) returns (r: Result<seq<byte>, string>)
      requires Valid()
      modifies mainCache, mainCache.lru, this`loads, this`fetches
      ensures Valid() && (mainCache.lru == old(mainCache.lru) || fresh(mainCache.lru))
      ensures key == "" ==> (r == Err(KeyRequired) && Entries() == old(Entries())
        && loads == old(loads) && fetches == old(fetches))
      ensures key != "" && key in KeysOf(old(Entries())) ==> (
        var i := IndexOf(old(Entries()), key);
        && r == Ok(old(Entries())[i].val)
        && Entries() == Promote(old(Entries()), i)
        && loads == old(loads) && fetches == old(fetches))
      ensures key != "" && key !in KeysOf(old(Entries())) ==> (
        && r == LoadResult(peers, name, getter, key)
        && fetches == old(fetches) + (if PeerFor(peers, key).Some? then [(PeerFor(peers, key).value, key)] else [])
        && loads == old(loads) + (if FromPeer(peers, name, key) then [] else [key])
        && (FromPeer(peers, name, key) || r.Err? ==> Entries() == old(Entries()))
        && (!FromPeer(peers, name, key) && r.Ok? ==>
              Entries() == Trim(Put(old(Entries()), key, r.value), 0, mainCache.cacheBytes)))
    {
      if key == "" {
        return Err(KeyRequired);
      }
      var v, ok := mainCache.Get(key);
      if ok {
        return Ok(v);
      }
      r := Load(key);
    }

    /** A miss: ask the peer owning the key, if any; on no peer or a peer
        error, load locally. */
    method Load(key: string) returns (r: Result<seq<byte>, string>)
      requires Valid()
      modifies mainCache, mainCache.lru, this`loads, this`fetches
      ensures Valid() && (mainCache.lru == old(mainCache.lru) || fresh(mainCache.lru))
      ensures r == LoadResult(peers, name, getter, key)
      ensures fetches == old(fetches) + (if PeerFor(peers, key).Some? then [(PeerFor(peers, key).value, key)] else [])
      ensures loads == old(loads) + (if FromPeer(peers, name, key) then [] else [key])
      ensures FromPeer(peers, name, key) || r.Err? ==> Entries() == old(Entries())
      ensures !FromPeer(peers, name, key) && r.Ok? ==>
        Entries() == Trim(Put(old(Entries()), key, r.value), 0, mainCache.cacheBytes)
    {
      if peers.Some? {
        var peer := peers.value.pick(key);
        if peer.Some? {
          r := GetFromPeer(peers.value, peer.value, key);
          if r.Ok? {
            return r;
          }
        }
      }
      r := GetLocally(key);
    }

    /** Fetches `key` of this group from a peer, unchanged. */
    method GetFromPeer(picker: PeerPicker, peer: string, key: string) returns (r: Result<seq<byte>, string>)
      modifies this`fetches
      ensures r == picker.fetch(peer, name, key)
      ensures fetches == old(fetches) + [(peer, key)]
    {
      fetches := fetches + [(peer, key)];
      r := picker.fetch(peer, name, key);
    }

    /** Calls the getter; a success is cached and returned, an error is
        returned unchanged and nothing is cached. */
    method GetLocally(key: string) returns (r: Result<seq<byte>, string>)
      requires Valid()
      modifies mainCache, mainCache.lru, this`loads
      ensures Valid() && (mainCache.lru == old(mainCache.lru) || fresh(mainCache.lru))
      ensures r == getter(key) && loads == old(loads) + [key]
      ensures r.Ok? ==> Entries() == Trim(Put(old(Entries()), key, r.value), 0, mainCache.cacheBytes)
      ensures r.Err? ==> Entries() == old(Entries())
    {
      loads := loads + [key];
      r := getter(key);
      if r.Ok? {
        PopulateCache(key, r.value);
      }
    }

    method PopulateCache(key: string, val: seq<byte>)
      requires Valid()
      modifies mainCache, mainCache.lru
      ensures Valid() && (mainCache.lru == old(mainCache.lru) || fresh(mainCache.lru))
      ensures Entries() == Trim(Put(old(Entries()), key, val), 0, mainCache.cacheBytes)
    {
      mainCache.Set(key, val);
    }
  }

  /** The process-wide `groups` map. */
  class Registry {
    var groups: map<string, Group>

    constructor ()
      ensures groups == map[]
    {
      groups := map[];
    }

    /** Creates a group and registers it under `name`, replacing any earlier
        one; a missing getter is refused. */
    method NewGroup(name: string, cacheBytes: int, getter: Option<Getter>) returns (g: Group?, err: Option<string>)
      requires cacheBytes >= 0
      modifies this
      ensures getter.None? ==> g == null && err == Some(NilGetter) && groups == old(groups)
      ensures getter.Some? ==> (g != null && fresh(g) && fresh(g.mainCache) && err.None?
        && g.Valid() && g.name == name && g.getter == getter.value && g.peers.None?
        && g.mainCache.cacheBytes == cacheBytes && g.Entries() == []
        && groups == old(groups)[name := g])
      ensures getter.Some? ==> GetGroup(name) == g
      ensures forall other :: other != name ==> GetGroup(other) == old(GetGroup(other))
    {
      if getter.None? {
        return null, Some(NilGetter);
      }
      g := new Group(name, cacheBytes, getter.value);
      groups := groups[name := g];
      err := None;
    }

    /** The group registered under `name`, or none. */
    function GetGroup(name: string): (g: Group?)
      reads this
      ensures g != null <==> name in groups
      ensures g != null ==> g == groups[name]
    {
      if name in groups then groups[name] else null
    }
  }

  // ---------------------------------------------------------------------
  // The scenarios of flycache_test.go

  /** The test's scores, as the bytes of their decimal strings (see `ScoresAreUtf8`). */
  const Tom630: seq<byte> := [54, 51, 48]
  const Jack589: seq<byte> := [53, 56, 57]
  const Sam567: seq<byte> := [53, 54, 55]

  lemma {:induction false} ScoresAreUtf8()
    ensures Tom630 == Utf8("630") && Jack589 == Utf8("589") && Sam567 == Utf8("567")
  {
  }

  /** The test's data source: three scores, and an error for any other key. */
  function Db(key: string): Result<seq<byte>, string>
  {
    if key == "Tom" then Ok(Tom630)
    else if key == "Jack" then Ok(Jack589)
    else if key == "Sam" then Ok(Sam567)
    else Err(key + " not exists")
  }

  /** Entries that fit into a positive budget are all kept. */
  lemma {:induction false} TrimUnderBudget(es: seq<Entry>, maxAllow: int)
    requires Used(es) <= maxAllow
    ensures Trim(es, 0, maxAllow) == es
  {
    assert es[..|es|] == es;
    TrimKeepsFittingPrefix(es, |es|, 0, maxAllow);
  }

  /** A new entry stored at the front of a list without its key. */
  lemma {:induction false} PushFront(e: Entry, es: seq<Entry>)
    requires e.key !in KeysOf(es)
    ensures Put(es, e.key, e.val) == [e] + es
    ensures KeysOf([e] + es) == [e.key] + KeysOf(es)
    ensures Used([e] + es) == Size(e) + Used(es)
  {
    UsedCons(e, es);
    PutNew(e, es);
    KeysCons(e, es);
  }

  lemma {:induction false} PutNew(e: Entry, es: seq<Entry>)
    requires e.key !in KeysOf(es)
    ensures Put(es, e.key, e.val) == [e] + es
  {
    assert Put(es, e.key, e.val) == [Entry(e.key, e.val)] + es;
  }

  lemma {:induction false} KeysCons(e: Entry, es: seq<Entry>)
    ensures KeysOf([e] + es) == [e.key] + KeysOf(es)
  {
    var ks := KeysOf([e] + es);
    assert forall j :: 0 < j < |ks| ==> ks[j] == KeysOf(es)[j - 1];
  }

  /** A key the source knows, missing from the cache and fitting into it, is
      loaded once by the first `Get` and served from the cache by the second. */
  method LoadThenHit(g: Group, k: string) returns (r1: Result<seq<byte>, string>, r2: Result<seq<byte>, string>)
    requires g.Valid() && g.getter == Db && g.peers.None? && g.mainCache.cacheBytes == 2048
    requires k != "" && k !in KeysOf(g.Entries()) && Db(k).Ok?
    requires Size(Entry(k, Db(k).value)) + Used(g.Entries()) <= 2048
    modifies g.mainCache, g.mainCache.lru, g`loads, g`fetches
    ensures g.Valid() && (g.mainCache.lru == old(g.mainCache.lru) || fresh(g.mainCache.lru))
    ensures r1 == Db(k) && r2 == Db(k)
    ensures KeysOf(g.Entries()) == [k] + old(KeysOf(g.Entries()))
    ensures Used(g.Entries()) == Size(Entry(k, Db(k).value)) + old(Used(g.Entries()))
    ensures g.loads == old(g.loads) + [k]
  {
    r1 := LoadMiss(g, k);
    r2 := HitFront(g, k);
  }

  /** The first `Get` of such a key calls the source and caches its value in front. */
  method LoadMiss(g: Group, k: string) returns (r: Result<seq<byte>, string>)
    requires g.Valid() && g.getter == Db && g.peers.None? && g.mainCache.cacheBytes == 2048
    requires k != "" && k !in KeysOf(g.Entries()) && Db(k).Ok?
    requires Size(Entry(k, Db(k).value)) + Used(g.Entries()) <= 2048
    modifies g.mainCache, g.mainCache.lru, g`loads, g`fetches
    ensures g.Valid() && (g.mainCache.lru == old(g.mainCache.lru) || fresh(g.mainCache.lru))
    ensures r == Db(k) && g.Entries() == [Entry(k, Db(k).value)] + old(g.Entries())
    ensures KeysOf(g.Entries()) == [k] + old(KeysOf(g.Entries()))
    ensures Used(g.Entries()) == Size(Entry(k, Db(k).value)) + old(Used(g.Entries()))
    ensures g.loads == old(g.loads) + [k]
  {
    var es := g.Entries();
    var e := Entry(k, Db(k).value);
    PushFront(e, es);
    TrimUnderBudget([e] + es, 2048);
    r := g.Get(k);
  }

  /** A `Get` of the key at the front is a hit that changes nothing. */
  method HitFront(g: Group, k: string) returns (r: Result<seq<byte>, string>)
    requires g.Valid() && k != "" && g.Entries() != [] && g.Entries()[0].key == k
    modifies g.mainCache, g.mainCache.lru, g`loads, g`fetches
    ensures g.Valid() && (g.mainCache.lru == old(g.mainCache.lru) || fresh(g.mainCache.lru))
    ensures r == Ok(old(g.Entries())[0].val)
    ensures g.Entries() == old(g.Entries()) && g.loads == old(g.loads)
  {
    assert KeysOf(g.Entries())[0] == k;
    assert Promote(g.Entries(), 0) == g.Entries();
    r := g.Get(k);
  }

  /** Each score entry takes its key's and its value's bytes. */
  lemma ScoreSizes()
    ensures Size(Entry("Tom", Tom630)) == 6 && Size(Entry("Jack", Jack589)) == 7
    ensures Size(Entry("Sam", Sam567)) == 6
  {
    ByteLenBounds("Tom"); ByteLenBounds("Jack"); ByteLenBounds("Sam");
  }

  /** The first two scores of the test, each fetched twice into an empty cache. */
  method LoadTomAndJack(g: Group) returns (first: seq<Result<seq<byte>, string>>, again: seq<Result<seq<byte>, string>>)
    requires g.Valid() && g.getter == Db && g.peers.None? && g.mainCache.cacheBytes == 2048 && g.Entries() == []
    modifies g.mainCache, g.mainCache.lru, g`loads, g`fetches
    ensures g.Valid() && (g.mainCache.lru == old(g.mainCache.lru) || fresh(g.mainCache.lru))
    ensures first == [Ok(Tom630), Ok(Jack589)] && again == first
    ensures g.loads == old(g.loads) + ["Tom", "Jack"]
    ensures KeysOf(g.Entries()) == ["Jack", "Tom"] && Used(g.Entries()) == 13
  {
    ScoreSizes();
    var t1, t2 := LoadThenHit(g, "Tom");
    var j1, j2 := LoadThenHit(g, "Jack");
    first, again := [t1, j1], [t2, j2];
  }

  /** The three scores of the test, each fetched twice into an empty cache. */
  method LoadScores(g: Group) returns (first: seq<Result<seq<byte>, string>>, again: seq<Result<seq<byte>, string>>)
    requires g.Valid() && g.getter == Db && g.peers.None? && g.mainCache.cacheBytes == 2048 && g.Entries() == []
    modifies g.mainCache, g.mainCache.lru, g`loads, g`fetches
    ensures g.Valid() && (g.mainCache.lru == old(g.mainCache.lru) || fresh(g.mainCache.lru))
    ensures first == [Ok(Tom630), Ok(Jack589), Ok(Sam567)] && again == first
    ensures g.loads == old(g.loads) + ["Tom", "Jack", "Sam"]
    ensures KeysOf(g.Entries()) == ["Sam", "Jack", "Tom"]
  {
    first, again := LoadTomAndJack(g);
    ScoreSizes();
    var s1, s2 := LoadThenHit(g, "Sam");
    first, again := first + [s1], again + [s2];
  }

  /** A key the source does not know is loaded and reported with the source's error. */
  method Undefined(g: Group) returns (missing: Result<seq<byte>, string>)
    requires g.Valid() && g.getter == Db && g.peers.None? && KeysOf(g.Entries()) == ["Sam", "Jack", "Tom"]
    modifies g.mainCache, g.mainCache.lru, g`loads, g`fetches
    ensures g.Valid() && (g.mainCache.lru == old(g.mainCache.lru) || fresh(g.mainCache.lru))
    ensures missing == Err("undefined not exists") && g.loads == old(g.loads) + ["undefined"]
    ensures g.Entries() == old(g.Entries())
  {
    assert "undefined" !in KeysOf(g.Entries());
    assert Db("undefined") == Err("undefined not exists") by {
      assert "undefined" + " not exists" == "undefined not exists";
    }
    missing := g.Get("undefined");
  }

  /** TestGet: each score is loaded from the source once and then served from
      the cache; an unknown key reports the source's error and caches nothing. */
  method GetScenario() returns (first: seq<Result<seq<byte>, string>>, again: seq<Result<seq<byte>, string>>,
                                missing: Result<seq<byte>, string>, ghost loads: seq<string>,
                                ghost cached: seq<Entry>)
    ensures first == [Ok(Tom630), Ok(Jack589), Ok(Sam567)] && again == first
    ensures missing == Err("undefined not exists")
    ensures loads == ["Tom", "Jack", "Sam", "undefined"]
    ensures KeysOf(cached) == ["Sam", "Jack", "Tom"] && "undefined" !in KeysOf(cached)
  {
    var g := new Group("scores", 2048, Db);
    first, again := LoadScores(g);
    missing := Undefined(g);
    loads, cached := g.loads, g.Entries();
  }

  /** TestGetGroup: a registered group is found by its name, another name is not. */
  method GetGroupScenario() returns (found: bool, other: bool)
    ensures found && !other
  {
    var registry := new Registry();
    var g, _ := registry.NewGroup("students", 2048, Some(Nothing));
    var h := registry.GetGroup("students");
    found := h != null && h == g && h.name == "students";
    other := registry.GetGroup("students" + "123") != null;
  }

  /** The test's getter for that group: no bytes and no error for every key. */
  function Nothing(key: string): Result<seq<byte>, string>
  {
    Ok([])
  }

  /** A picker that sends every key to one peer. */
  function OnePeer(key: string): Option<string>
  {
    Some("peer-a")
  }

  /** That peer: it serves every key but "Sam", for which it fails. */
  function FlakyPeer(peer: string, group: string, key: string): Result<seq<byte>, string>
  {
    if key == "Sam" then Err("peer down") else Ok([1])
  }

  /** A second registration of a peer picker is refused. */
  method RegisterTwiceScenario() returns (first: Option<string>, second: Option<string>)
    ensures first.None? && second == Some(PeersTwice)
  {
    var g := new Group("scores", 0, Db);
    var picker := PeerPicker(OnePeer, FlakyPeer);
    first := g.RegisterPeers(picker);
    second := g.RegisterPeers(picker);
  }

  /** With every key owned by one peer: what the peer serves is returned
      without touching the source or the cache; a peer error falls back to
      the source, whose value is cached. */
  method PeerScenario() returns (remote: Result<seq<byte>, string>, local: Result<seq<byte>, string>,
                                 ghost cached: seq<Entry>, ghost loads: seq<string>,
                                 ghost fetches: seq<(string, string)>)
    ensures remote == Ok([1]) && local == Ok(Sam567)
    ensures cached == [Entry("Sam", Sam567)] && loads == ["Sam"]
    ensures fetches == [("peer-a", "Tom"), ("peer-a", "Sam")]
  {
    var g := new Group("scores", 0, Db);
    var _ := g.RegisterPeers(PeerPicker(OnePeer, FlakyPeer));
    remote := ServedByPeer(g);
    local := PeerFallsBack(g);
    cached, loads, fetches := g.Entries(), g.loads, g.fetches;
  }

  /** "Tom" comes from the peer: the source is not called and nothing is cached. */
  method ServedByPeer(g: Group) returns (r: Result<seq<byte>, string>)
    requires g.Valid() && g.getter == Db && g.peers == Some(PeerPicker(OnePeer, FlakyPeer))
    requires g.Entries() == [] && g.loads == [] && g.fetches == []
    modifies g.mainCache, g.mainCache.lru, g`loads, g`fetches
    ensures g.Valid() && (g.mainCache.lru == old(g.mainCache.lru) || fresh(g.mainCache.lru))
    ensures r == Ok([1]) && g.Entries() == [] && g.loads == [] && g.fetches == [("peer-a", "Tom")]
  {
    r := g.Get("Tom");
  }

  /** The peer fails on "Sam": the source's value is returned and cached. */
  method PeerFallsBack(g: Group) returns (r: Result<seq<byte>, string>)
    requires g.Valid() && g.getter == Db && g.peers == Some(PeerPicker(OnePeer, FlakyPeer))
    requires g.mainCache.cacheBytes == 0
    requires g.Entries() == [] && g.loads == [] && g.fetches == [("peer-a", "Tom")]
    modifies g.mainCache, g.mainCache.lru, g`loads, g`fetches
    ensures g.Valid() && (g.mainCache.lru == old(g.mainCache.lru) || fresh(g.mainCache.lru))
    ensures r == Ok(Sam567) && g.Entries() == [Entry("Sam", Sam567)] && g.loads == ["Sam"]
    ensures g.fetches == [("peer-a", "Tom"), ("peer-a", "Sam")]
  {
    r := g.Get("Sam");
  }
}
