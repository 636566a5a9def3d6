/** The consistent-hash ring of chash/chash.go.

    Every identity gets `replicas` virtual nodes on a ring of 32-bit hashes;
    a key belongs to the identity of the first virtual node clockwise from
    the key's own hash. */
module Chash {
  import opened Common

  type U32 = x: int | 0 <= x < 0x1_0000_0000

  /** `Hash`: any function from bytes to an unsigned 32-bit value. */
  type Hash = seq<byte> -> U32

  // ---------------------------------------------------------------------
  // The default hash: CRC-32 with the IEEE 802.3 polynomial (reflected form)

  const IeeePoly: bv32 := 0xEDB8_8320

  /** `rounds` bit steps of the reflected CRC register. */
  function CrcShift(c: bv32, rounds: nat): bv32
    decreases rounds
  {
    if rounds == 0 then c
    else CrcShift(if c & 1 == 1 then (c >> 1) ^ IeeePoly else c >> 1, rounds - 1)
  }

  function CrcUpdate(crc: bv32, data: seq<byte>): bv32
    decreases |data|
  {
    if data == [] then crc
    else CrcUpdate(CrcShift(crc ^ (data[0] as int as bv32), 8), data[1..])
  }

  /** `crc32.ChecksumIEEE`. */
  function ChecksumIeee(data: seq<byte>): U32
  {
    (CrcUpdate(0xFFFF_FFFF, data) ^ 0xFFFF_FFFF) as int
  }

  // ---------------------------------------------------------------------
  // `strconv.Itoa` on the replica index

  function Digit(d: nat): char
    requires d < 10
  {
    ('0' as int + d) as char
  }

  function Itoa(n: nat): (s: string)
    decreases n
  {
    if n < 10 then [Digit(n)] else Itoa(n / 10) + [Digit(n % 10)]
  }

  // ---------------------------------------------------------------------
  // Virtual nodes

  /** One virtual node: its position on the ring and the identity it stands for. */
  datatype VNode = VNode(hash: int, id: string)

  /** How many virtual nodes the replica loop makes: `for i := 0; i < replicas; i++`. */
  function Count(replicas: int): nat
  {
    if replicas > 0 then replicas else 0
  }

  /** The virtual nodes of one identity: replica `i` hashes `Itoa(i) + id`. */
  function Replicas(hash: Hash, id: string, n: nat): (vs: seq<VNode>)
    ensures |vs| == n
  {
    seq(n, i requires 0 <= i < n => VNode(hash(Utf8(Itoa(i) + id)), id))
  }

  /** The virtual nodes of several identities, in the order `Add` makes them. */
  function VNodes(hash: Hash, ids: seq<string>, n: nat): seq<VNode>
  {
    if ids == [] then [] else VNodes(hash, ids[..|ids| - 1], n) + Replicas(hash, ids[|ids| - 1], n)
  }

  function Hashes(vs: seq<VNode>): (hs: seq<int>)
    ensures |hs| == |vs|
  {
    seq(|vs|, i requires 0 <= i < |vs| => vs[i].hash)
  }

  /** `hashMap[hash] = key` for each virtual node in turn. */
  function Assign(m: map<int, string>, vs: seq<VNode>): map<int, string>
  {
    if vs == [] then m else Assign(m, vs[..|vs| - 1])[vs[|vs| - 1].hash := vs[|vs| - 1].id]
  }

  /** Each identity contributes exactly `n` virtual nodes, all standing for it. */
  lemma {:induction false} VNodesLength(hash: Hash, ids: seq<string>, n: nat)
    ensures |VNodes(hash, ids, n)| == n * |ids|
  {
    if ids != [] {
      var init := ids[..|ids| - 1];
      VNodesLength(hash, init, n);
      assert n * |ids| == n * |init| + n;
    }
  }

  /** Every virtual node stands for one of the identities it was made from. */
  lemma {:induction false} VNodesIds(hash: Hash, ids: seq<string>, n: nat)
    ensures forall v :: v in VNodes(hash, ids, n) ==> v.id in ids
  {
    if ids != [] {
      var init := ids[..|ids| - 1];
      VNodesIds(hash, init, n);
      forall v | v in VNodes(hash, ids, n) ensures v.id in ids {
        if v in VNodes(hash, init, n) {
          assert v.id in init;
        } else {
          assert v in Replicas(hash, ids[|ids| - 1], n);
        }
      }
    }
  }

  lemma {:induction false} VNodesSnoc(hash: Hash, ids: seq<string>, j: nat, n: nat)
    requires j < |ids|
    ensures VNodes(hash, ids[..j + 1], n) == VNodes(hash, ids[..j], n) + Replicas(hash, ids[j], n)
  {
    assert ids[..j + 1][..j] == ids[..j];
  }

  lemma {:induction false} ReplicasSnoc(hash: Hash, id: string, i: nat)
    ensures Replicas(hash, id, i + 1) == Replicas(hash, id, i) + [VNode(hash(Utf8(Itoa(i) + id)), id)]
  {
  }

  lemma {:induction false} HashesAppend(a: seq<VNode>, b: seq<VNode>)
    ensures Hashes(a + b) == Hashes(a) + Hashes(b)
  {
  }

  /** One turn of the identity loop of `Add`: the replicas of the next
      identity extend the ring and the map built so far. */
  lemma {:induction false} AddIdsStep(hash: Hash, k0: seq<int>, m0: map<int, string>, ids: seq<string>, j: nat, n: nat)
    requires j < |ids|
    ensures k0 + Hashes(VNodes(hash, ids[..j], n)) + Hashes(Replicas(hash, ids[j], n))
         == k0 + Hashes(VNodes(hash, ids[..j + 1], n))
    ensures Assign(Assign(m0, VNodes(hash, ids[..j], n)), Replicas(hash, ids[j], n))
         == Assign(m0, VNodes(hash, ids[..j + 1], n))
  {
    var done, next := VNodes(hash, ids[..j], n), Replicas(hash, ids[j], n);
    VNodesSnoc(hash, ids, j, n);
    HashesAppend(done, next);
    AssignConcat(m0, done, next);
    assert k0 + Hashes(done) + Hashes(next) == k0 + (Hashes(done) + Hashes(next));
  }

  lemma {:induction false} AssignSnoc(m: map<int, string>, vs: seq<VNode>, v: VNode)
    ensures Assign(m, vs + [v]) == Assign(m, vs)[v.hash := v.id]
  {
    assert (vs + [v])[..|vs|] == vs;
  }

  lemma {:induction false} AssignConcat(m: map<int, string>, a: seq<VNode>, b: seq<VNode>)
    ensures Assign(m, a + b) == Assign(Assign(m, a), b)
    decreases |b|
  {
    if b == [] {
      assert a + b == a;
    } else {
      var init := b[..|b| - 1];
      var v := b[|b| - 1];
      assert b == init + [v];
      assert a + b == (a + init) + [v];
      AssignSnoc(m, a + init, v);
      AssignConcat(m, a, init);
      AssignSnoc(Assign(m, a), init, v);
    }
  }

  /** The mapping is defined at the old hashes and at every virtual node's hash, and nowhere else. */
  lemma {:induction false} AssignDomain(m: map<int, string>, vs: seq<VNode>, h: int)
    ensures h in Assign(m, vs) <==> h in m || h in Hashes(vs)
  {
    if vs != [] {
      var init := vs[..|vs| - 1];
      AssignDomain(m, init, h);
      assert Hashes(vs) == Hashes(init) + [vs[|vs| - 1].hash];
    }
  }

  /** Every identity in the mapping comes from the old mapping or from a virtual node. */
  lemma {:induction false} AssignValues(m: map<int, string>, vs: seq<VNode>, ids: set<string>)
    requires forall h :: h in m ==> m[h] in ids
    requires forall v :: v in vs ==> v.id in ids
    ensures forall h :: h in Assign(m, vs) ==> Assign(m, vs)[h] in ids
  {
    if vs != [] {
      var init := vs[..|vs| - 1];
      assert forall v :: v in init ==> v in vs;
      AssignValues(m, init, ids);
      assert vs[|vs| - 1] in vs;
    }
  }

  /** Colliding virtual hashes: the last virtual node written at a hash wins. */
  lemma {:induction false} AssignLastWins(m: map<int, string>, vs: seq<VNode>, i: nat)
    requires i < |vs|
    requires forall j :: i < j < |vs| ==> vs[j].hash != vs[i].hash
    ensures vs[i].hash in Assign(m, vs) && Assign(m, vs)[vs[i].hash] == vs[i].id
  {
    if i < |vs| - 1 {
      var init := vs[..|vs| - 1];
      AssignLastWins(m, init, i);
    }
  }

  // ---------------------------------------------------------------------
  // `sort.Ints` and `sort.Search`

  ghost predicate Sorted(s: seq<int>)
  {
    forall i, j :: 0 <= i < j < |s| ==> s[i] <= s[j]
  }

  /** A sorted sequence stays sorted behind a head no greater than any of its elements. */
  lemma {:induction false} SortedCons(x: int, t: seq<int>)
    requires Sorted(t) && forall k :: 0 <= k < |t| ==> x <= t[k]
    ensures Sorted([x] + t)
  {
  }

  function Insert(x: int, s: seq<int>): seq<int>
  {
    if s == [] || x <= s[0] then [x] + s else [s[0]] + Insert(x, s[1..])
  }

  /** Inserting adds exactly `x`. */
  lemma {:induction false} InsertPermutes(x: int, s: seq<int>)
    ensures multiset(Insert(x, s)) == multiset(s) + multiset{x}
  {
    if s != [] && x > s[0] {
      InsertPermutes(x, s[1..]);
      assert s == [s[0]] + s[1..];
    }
  }

  /** Inserting into a sorted sequence keeps it sorted. */
  lemma {:induction false} InsertSorted(x: int, s: seq<int>)
    requires Sorted(s)
    ensures Sorted(Insert(x, s))
  {
    if s == [] || x <= s[0] {
      SortedCons(x, s);
    } else {
      var t := Insert(x, s[1..]);
      InsertSorted(x, s[1..]);
      InsertPermutes(x, s[1..]);
      InsertAbove(s[0], x, s[1..], t);
      SortedCons(s[0], t);
    }
  }

  lemma {:induction false} InsertAbove(lo: int, x: int, s: seq<int>, t: seq<int>)
    requires lo < x && forall k :: 0 <= k < |s| ==> lo <= s[k]
    requires multiset(t) == multiset(s) + multiset{x}
    ensures forall k :: 0 <= k < |t| ==> lo <= t[k]
  {
    forall k | 0 <= k < |t| ensures lo <= t[k] {
      assert t[k] in multiset(t);
      if t[k] != x {
        assert t[k] in multiset(s);
        var m :| 0 <= m < |s| && s[m] == t[k];
      }
    }
  }

  /** `sort.Ints`, as insertion sort. */
  function Sort(s: seq<int>): seq<int>
  {
    if s == [] then [] else Insert(s[0], Sort(s[1..]))
  }

  /** `sort.Ints` yields an ascending permutation of its input. */
  lemma {:induction false} SortSorted(s: seq<int>)
    ensures Sorted(Sort(s)) && multiset(Sort(s)) == multiset(s)
  {
    if s != [] {
      SortSorted(s[1..]);
      InsertSorted(s[0], Sort(s[1..]));
      InsertPermutes(s[0], Sort(s[1..]));
      assert s == [s[0]] + s[1..];
    }
  }

  /** `sort.Search` with the predicate `keys[i] >= h`: the first index whose
      hash is at least `h`, or `|ks|` when there is none. */
  function Search(ks: seq<int>, h: int, lo: nat, hi: nat): (i: nat)
    requires lo <= hi <= |ks| && Sorted(ks)
    requires forall j :: 0 <= j < lo ==> ks[j] < h
    requires forall j :: hi <= j < |ks| ==> ks[j] >= h
    ensures lo <= i <= hi
    ensures forall j :: 0 <= j < i ==> ks[j] < h
    ensures forall j :: i <= j < |ks| ==> ks[j] >= h
    decreases hi - lo
  {
    if lo == hi then lo
    else
      var mid := lo + (hi - lo) / 2;
      if ks[mid] >= h then Search(ks, h, lo, mid) else Search(ks, h, mid + 1, hi)
  }

  /** Position `i` of the ring owns hash `h`: it is the first virtual node at or
      after `h`, or, when every virtual node lies before `h`, the first one. */
  ghost predicate IsOwner(ks: seq<int>, h: int, i: int)
  {
    && 0 <= i < |ks|
    && (forall j :: 0 <= j < i ==> ks[j] < h)
    && (ks[i] >= h || (i == 0 && forall j :: 0 <= j < |ks| ==> ks[j] < h))
  }

  /** At most one position owns a hash. */
  lemma {:induction false} OwnerUnique(ks: seq<int>, h: int, i: int, i': int)
    requires IsOwner(ks, h, i) && IsOwner(ks, h, i')
    ensures i == i'
  {
  }

  /** A key hashing exactly onto a virtual node is owned by that node. */
  lemma {:induction false} OwnerOfPresentHash(ks: seq<int>, h: int, i: int)
    requires Sorted(ks) && h in ks && IsOwner(ks, h, i)
    ensures ks[i] == h
  {
    var m :| 0 <= m < |ks| && ks[m] == h;
  }

  /** The head of a non-empty sorted sequence is its least element. */
  lemma {:induction false} SortedHeads(a: seq<int>, b: seq<int>)
    requires Sorted(a) && Sorted(b) && a != [] && b != [] && multiset(a) == multiset(b)
    ensures a[0] == b[0]
  {
    assert a[0] in multiset(b) && b[0] in multiset(a);
    var i :| 0 <= i < |b| && b[i] == a[0];
    var j :| 0 <= j < |a| && a[j] == b[0];
  }

  lemma {:induction false} TailMultiset(a: seq<int>)
    requires a != []
    ensures multiset(a[1..]) == multiset(a) - multiset{a[0]}
  {
    assert a == [a[0]] + a[1..];
  }

  /** `sort.Ints` has one possible outcome: sorted sequences with equal multisets are equal. */
  lemma {:induction false} SortedUnique(a: seq<int>, b: seq<int>)
    requires Sorted(a) && Sorted(b) && multiset(a) == multiset(b)
    ensures a == b
  {
    if a != [] {
      assert |b| == |multiset(b)| == |a|;
      SortedHeads(a, b);
      TailMultiset(a);
      TailMultiset(b);
      SortedUnique(a[1..], b[1..]);
      assert a == [a[0]] + a[1..] && b == [b[0]] + b[1..];
    }
  }

  /** Sorting neither adds nor drops a hash. */
  lemma {:induction false} SortKeepsElements(s: seq<int>)
    ensures forall w :: w in Sort(s) <==> w in s
  {
    SortSorted(s);
    forall w ensures w in Sort(s) <==> w in s {
      assert w in Sort(s) <==> w in multiset(Sort(s));
      assert w in s <==> w in multiset(s);
    }
  }

  /** Any ascending rearrangement of the input is what `sort.Ints` produces. */
  lemma {:induction false} SortIsUnique(s: seq<int>, r: seq<int>)
    requires Sorted(r) && multiset(r) == multiset(s)
    ensures Sort(s) == r
  {
    SortSorted(s);
    SortedUnique(Sort(s), r);
  }

  /** The owner of `h` holds the least virtual hash at or after `h`. */
  lemma {:induction false} OwnerIsSuccessor(ks: seq<int>, h: int, i: int, v: int)
    requires Sorted(ks) && IsOwner(ks, h, i)
    requires v in ks && h <= v && forall w :: w in ks ==> w < h || v <= w
    ensures ks[i] == v
  {
    var m :| 0 <= m < |ks| && ks[m] == v;
    assert ks[i] in ks;
  }

  /** Past the largest virtual hash, the owner is the least one. */
  lemma {:induction false} OwnerWraps(ks: seq<int>, h: int, i: int, v: int)
    requires Sorted(ks) && IsOwner(ks, h, i)
    requires v in ks && forall w :: w in ks ==> w < h && v <= w
    ensures ks[i] == v
  {
    var m :| 0 <= m < |ks| && ks[m] == v;
    assert ks[i] in ks && ks[0] in ks;
  }

  /** `sort.Search(len(keys), ...) % len(keys)`: the owning position of `h`. */
  function Owner(ks: seq<int>, h: int): (i: nat)
    requires Sorted(ks) && ks != []
    ensures IsOwner(ks, h, i)
  {
    var idx := Search(ks, h, 0, |ks|);
    WrapIndex(idx, |ks|);
    idx % |ks|
  }

  /** `idx % n` for an index one past the end wraps to the start. */
  lemma {:induction false} WrapIndex(idx: nat, n: nat)
    requires 0 < n && idx <= n
    ensures idx % n == if idx < n then idx else 0
  {
  }

  /** Adding virtual nodes keeps every ring hash mapped and every mapped identity known. */
  lemma {:induction false} RingStaysValid(k0: seq<int>, m0: map<int, string>, vs: seq<VNode>, ids: set<string>)
    requires forall h :: h in k0 ==> h in m0
    requires forall h :: h in m0 ==> m0[h] in ids
    requires forall v :: v in vs ==> v.id in ids
    ensures forall h :: h in Sort(k0 + Hashes(vs)) ==> h in Assign(m0, vs)
    ensures forall h :: h in Assign(m0, vs) ==> Assign(m0, vs)[h] in ids
  {
    AssignValues(m0, vs, ids);
    SortSorted(k0 + Hashes(vs));
    forall h | h in Sort(k0 + Hashes(vs)) ensures h in Assign(m0, vs) {
      assert h in multiset(Sort(k0 + Hashes(vs)));
      assert h in k0 + Hashes(vs);
      AssignDomain(m0, vs, h);
    }
  }

  /** After adding virtual nodes `vs`, a hash whose nearest virtual hash
      clockwise is `vs[j]`'s (and no later node overwrote it) maps to `vs[j]`'s identity. */
  lemma {:induction false} GetFindsSuccessor(k0: seq<int>, m0: map<int, string>, vs: seq<VNode>, h: int, i: int, j: int)
    requires IsOwner(Sort(k0 + Hashes(vs)), h, i)
    requires 0 <= j < |vs| && h <= vs[j].hash
    requires forall w :: w in k0 + Hashes(vs) ==> w < h || vs[j].hash <= w
    requires forall l :: j < l < |vs| ==> vs[l].hash != vs[j].hash
    ensures Sort(k0 + Hashes(vs))[i] == vs[j].hash
    ensures vs[j].hash in Assign(m0, vs) && Assign(m0, vs)[vs[j].hash] == vs[j].id
  {
    var hs := k0 + Hashes(vs);
    assert vs[j].hash == hs[|k0| + j];
    SortSorted(hs);
    SortKeepsElements(hs);
    OwnerIsSuccessor(Sort(hs), h, i, vs[j].hash);
    AssignLastWins(m0, vs, j);
  }

  /** A hash past every virtual hash wraps around to the least one. */
  lemma {:induction false} GetWrapsAround(k0: seq<int>, m0: map<int, string>, vs: seq<VNode>, h: int, i: int, j: int)
    requires IsOwner(Sort(k0 + Hashes(vs)), h, i)
    requires 0 <= j < |vs|
    requires forall w :: w in k0 + Hashes(vs) ==> w < h && vs[j].hash <= w
    requires forall l :: j < l < |vs| ==> vs[l].hash != vs[j].hash
    ensures Sort(k0 + Hashes(vs))[i] == vs[j].hash
    ensures vs[j].hash in Assign(m0, vs) && Assign(m0, vs)[vs[j].hash] == vs[j].id
  {
    var hs := k0 + Hashes(vs);
    assert vs[j].hash == hs[|k0| + j];
    SortSorted(hs);
    SortKeepsElements(hs);
    OwnerWraps(Sort(hs), h, i, vs[j].hash);
    AssignLastWins(m0, vs, j);
  }

  // ---------------------------------------------------------------------
  // The ring

  class Map {
    const hash: Hash
    const replicas: int
    /** The virtual-node hashes, ascending after every `Add`. */
    var keys: seq<int>
    /** Virtual-node hash to identity. */
    var hashMap: map<int, string>
    /** The identities passed to `Add` so far. */
    ghost var ids: set<string>

    ghost predicate Valid()
      reads this
    {
      && Sorted(keys)
      && (forall h :: h in keys ==> h in hashMap)
      && (forall h :: h in hashMap ==> hashMap[h] in ids)
    }

    /** `New`: the given hash, or CRC-32 (IEEE) when none is given; an empty ring. */
    constructor (replicas: int, fn: Option<Hash>)
      ensures Valid()
      ensures this.replicas == replicas && keys == [] && hashMap == map[] && ids == {}
      ensures fn.Some? ==> hash == fn.value
      ensures fn.None? ==> hash == ChecksumIeee
    {
      this.replicas := replicas;
      var h: Hash := if fn.Some? then fn.value else ChecksumIeee;
      hash := h;
      keys := [];
      hashMap := map[];
      ids := {};
    }

    /** Adds `replicas` virtual nodes per identity, records their identities
        (a later colliding hash overwrites), and sorts the ring. */
    method Add(newIds: seq<string>)
      requires Valid()
      modifies this
      ensures Valid()
      ensures keys == Sort(old(keys) + Hashes(VNodes(hash, newIds, Count(replicas))))
      ensures hashMap == Assign(old(hashMap), VNodes(hash, newIds, Count(replicas)))
      ensures ids == old(ids) + set id | id in newIds
      ensures |keys| == |old(keys)| + Count(replicas) * |newIds|
    {
      AddIds(newIds);
      SortSorted(keys);
      assert |Sort(keys)| == |multiset(keys)|;
      VNodesLength(hash, newIds, Count(replicas));
      keys := Sort(keys);
      ids := ids + set id | id in newIds;
      VNodesIds(hash, newIds, Count(replicas));
      RingStaysValid(old(keys), old(hashMap), VNodes(hash, newIds, Count(replicas)), ids);
    }

    /** The identity loop of `Add`, before sorting. */
    method AddIds(newIds: seq<string>)
      modifies this`keys, this`hashMap
      ensures keys == old(keys) + Hashes(VNodes(hash, newIds, Count(replicas)))
      ensures hashMap == Assign(old(hashMap), VNodes(hash, newIds, Count(replicas)))
    {
      ghost var n := Count(replicas);
      var j := 0;
      while j < |newIds|
        invariant 0 <= j <= |newIds|
        invariant keys == old(keys) + Hashes(VNodes(hash, newIds[..j], n))
        invariant hashMap == Assign(old(hashMap), VNodes(hash, newIds[..j], n))
      {
        AddReplicas(newIds[j]);
        AddIdsStep(hash, old(keys), old(hashMap), newIds, j, n);
        j := j + 1;
      }
      assert newIds[..j] == newIds;
    }

    /** The replica loop of `Add` for one identity: appends its virtual hashes
        and records the identity under each. */
    method AddReplicas(key: string)
      modifies this`keys, this`hashMap
      ensures keys == old(keys) + Hashes(Replicas(hash, key, Count(replicas)))
      ensures hashMap == Assign(old(hashMap), Replicas(hash, key, Count(replicas)))
    {
      var i := 0;
      while i < replicas
        invariant 0 <= i <= Count(replicas)
        invariant keys == old(keys) + Hashes(Replicas(hash, key, i))
        invariant hashMap == Assign(old(hashMap), Replicas(hash, key, i))
      {
        var h := hash(Utf8(Itoa(i) + key));
        ReplicasSnoc(hash, key, i);
        HashesAppend(Replicas(hash, key, i), [VNode(h, key)]);
        AssignSnoc(old(hashMap), Replicas(hash, key, i), VNode(h, key));
        keys := keys + [h];
        hashMap := hashMap[h := key];
        i := i + 1;
      }
    }

    /** The identity owning `key`: the one at the first virtual hash `>= hash(key)`,
        wrapping to the first virtual node; `""` on an empty ring. */
    function Get(key: string): (id: string)
      reads this
      requires Valid()
      ensures keys == [] ==> id == ""
      ensures keys != [] ==> id in ids
      ensures keys != [] ==> exists i :: IsOwner(keys, hash(Utf8(key)), i) && id == hashMap[keys[i]]
    {
      if |keys| == 0 then ""
      else
        var i := Owner(keys, hash(Utf8(key)));
        assert keys[i] in keys;
        hashMap[keys[i]]
    }
  }
}
