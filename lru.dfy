/** The byte-budgeted least-recently-used engine of lru/lru.go.

    The Go cache keeps a doubly linked list of entries (most recently used at
    the front) and a map from key to list element. Here the list is the
    sequence `ll` (index 0 is the front, the last index is the back) and the
    map is `items`, from key to the value held in that key's entry. */
module Lru {
  import opened Common

  /** One list element: a key and the value stored under it. */
  datatype Entry = Entry(key: string, val: seq<byte>)

  /** What an entry adds to `usedBytes`: `len(key) + val.Len()`. */
  function Size(e: Entry): nat
  {
    ByteLen(e.key) + |e.val|
  }

  /** The total size of a list of entries. */
  function Used(es: seq<Entry>): nat
  {
    if es == [] then 0 else Size(es[0]) + Used(es[1..])
  }

  function KeysOf(es: seq<Entry>): (ks: seq<string>)
    ensures |ks| == |es|
    ensures forall i :: 0 <= i < |es| ==> ks[i] == es[i].key
  {
    seq(|es|, i requires 0 <= i < |es| => es[i].key)
  }

  predicate Distinct(ks: seq<string>)
  {
    forall i, j :: 0 <= i < j < |ks| ==> ks[i] != ks[j]
  }

  function Reversed<T>(s: seq<T>): seq<T>
  {
    if s == [] then [] else Reversed(s[1..]) + [s[0]]
  }

  /** Position of `k` in the list: the element `items[k]` points to. */
  function IndexOf(es: seq<Entry>, k: string): (i: nat)
    requires k in KeysOf(es)
    ensures i < |es| && es[i].key == k
    ensures forall j :: 0 <= j < i ==> es[j].key != k
  {
    if es[0].key == k then 0
    else
      assert KeysOf(es)[1..] == KeysOf(es[1..]);
      IndexOf(es[1..], k) + 1
  }

  /** `ll.Remove(el)`: the list without its `i`-th element. */
  function Without(es: seq<Entry>, i: nat): seq<Entry>
    requires i < |es|
  {
    es[..i] + es[i + 1..]
  }

  /** `ll.MoveToFront(el)`. */
  function Promote(es: seq<Entry>, i: nat): seq<Entry>
    requires i < |es|
  {
    [es[i]] + Without(es, i)
  }

  /** The list right after `Set(key, val)` and before eviction. */
  function Put(es: seq<Entry>, key: string, val: seq<byte>): seq<Entry>
  {
    if key in KeysOf(es) then [Entry(key, val)] + Without(es, IndexOf(es, key))
    else [Entry(key, val)] + es
  }

  /** The eviction loop of `Set`: drop the back entry while a positive budget
      is exceeded. `drift` is what `usedBytes` counts beyond the live entries. */
  function Trim(es: seq<Entry>, drift: nat, maxAllow: int): (r: seq<Entry>)
    ensures |r| <= |es| && r == es[..|r|]
    decreases |es|
  {
    if maxAllow > 0 && Used(es) + drift > maxAllow && es != [] then
      Trim(es[..|es| - 1], drift, maxAllow)
    else es
  }

  // ---------------------------------------------------------------------
  // Facts about the specification functions

  lemma {:induction false} UsedAppend(a: seq<Entry>, b: seq<Entry>)
    ensures Used(a + b) == Used(a) + Used(b)
  {
    if a == [] {
      assert a + b == b;
    } else {
      assert (a + b)[0] == a[0];
      assert (a + b)[1..] == a[1..] + b;
      UsedAppend(a[1..], b);
    }
  }

  /** Removing an element takes away exactly its size. */
  lemma {:induction false} UsedWithout(es: seq<Entry>, i: nat)
    requires i < |es|
    ensures Used(Without(es, i)) == Used(es) - Size(es[i])
  {
    var front, back := es[..i], es[i + 1..];
    assert es == front + ([es[i]] + back);
    UsedAppend(front, [es[i]] + back);
    UsedCons(es[i], back);
    UsedAppend(front, back);
  }

  lemma {:induction false} UsedCons(e: Entry, es: seq<Entry>)
    ensures Used([e] + es) == Size(e) + Used(es)
  {
    assert ([e] + es)[1..] == es;
  }

  /** The back entry's size, when the list is cut before it. */
  lemma {:induction false} UsedDropLast(es: seq<Entry>)
    requires es != []
    ensures Used(es[..|es| - 1]) == Used(es) - Size(es[|es| - 1])
  {
    assert es[..|es| - 1] == Without(es, |es| - 1);
    UsedWithout(es, |es| - 1);
  }

  /** Moving an entry to the front changes neither the set of entries nor the total size. */
  lemma {:induction false} PromoteKeeps(es: seq<Entry>, i: nat)
    requires i < |es|
    ensures |Promote(es, i)| == |es| && Promote(es, i)[0] == es[i]
    ensures multiset(Promote(es, i)) == multiset(es)
    ensures Used(Promote(es, i)) == Used(es)
  {
    assert es == es[..i] + [es[i]] + es[i + 1..];
    UsedWithout(es, i);
    UsedCons(es[i], Without(es, i));
  }

  /** The entries of `Without(es, i)`, position by position. */
  lemma {:induction false} WithoutAt(es: seq<Entry>, i: nat, j: nat)
    requires i < |es| && j < |es| - 1
    ensures Without(es, i)[j] == if j < i then es[j] else es[j + 1]
  {
  }

  /** Unlinking an entry keeps the other keys distinct and removes exactly its key. */
  lemma {:induction false} DistinctWithout(es: seq<Entry>, i: nat)
    requires i < |es| && Distinct(KeysOf(es))
    ensures Distinct(KeysOf(Without(es, i)))
    ensures forall k :: k in KeysOf(Without(es, i)) <==> k in KeysOf(es) && k != es[i].key
  {
    WithoutDistinct(es, i);
    forall k ensures k in KeysOf(Without(es, i)) <==> k in KeysOf(es) && k != es[i].key {
      WithoutKey(es, i, k);
    }
  }

  lemma {:induction false} WithoutDistinct(es: seq<Entry>, i: nat)
    requires i < |es| && Distinct(KeysOf(es))
    ensures Distinct(KeysOf(Without(es, i)))
  {
    var w := Without(es, i);
    forall a, b | 0 <= a < b < |w| ensures w[a].key != w[b].key {
      WithoutAt(es, i, a);
      WithoutAt(es, i, b);
    }
  }

  lemma {:induction false} WithoutKey(es: seq<Entry>, i: nat, k: string)
    requires i < |es| && Distinct(KeysOf(es))
    ensures k in KeysOf(Without(es, i)) <==> k in KeysOf(es) && k != es[i].key
  {
    var ks := KeysOf(es);
    assert KeysOf(Without(es, i)) == ks[..i] + ks[i + 1..];
    assert ks == ks[..i] + [ks[i]] + ks[i + 1..];
    if k == es[i].key {
      forall j | 0 <= j < |ks| && j != i ensures ks[j] != k {
        assert ks[i] == k;
      }
    }
  }

  /** `Set` puts its entry at the front, keeps the keys distinct, replaces the
      old entry for the key if there was one, and otherwise adds `len(key) + val.Len()`. */
  lemma {:induction false} PutShape(es: seq<Entry>, key: string, val: seq<byte>)
    requires Distinct(KeysOf(es))
    ensures Put(es, key, val)[0] == Entry(key, val)
    ensures Distinct(KeysOf(Put(es, key, val)))
    ensures forall k :: k in KeysOf(Put(es, key, val)) <==> k == key || k in KeysOf(es)
    ensures key in KeysOf(es) ==>
      Used(Put(es, key, val)) == Used(es) + |val| - |es[IndexOf(es, key)].val|
    ensures key !in KeysOf(es) ==> Used(Put(es, key, val)) == Used(es) + ByteLen(key) + |val|
  {
    var p := Put(es, key, val);
    if key in KeysOf(es) {
      var i := IndexOf(es, key);
      DistinctWithout(es, i);
      UsedWithout(es, i);
      UsedCons(Entry(key, val), Without(es, i));
      forall a, b | 0 <= a < b < |p| ensures p[a].key != p[b].key {
        if a == 0 {
          assert p[b] == Without(es, i)[b - 1];
          assert p[b].key in KeysOf(Without(es, i));
        } else {
          assert p[a] == Without(es, i)[a - 1] && p[b] == Without(es, i)[b - 1];
          assert KeysOf(Without(es, i))[a - 1] != KeysOf(Without(es, i))[b - 1];
        }
      }
      forall k ensures k in KeysOf(p) <==> k == key || k in KeysOf(es) {
        assert KeysOf(p) == [key] + KeysOf(Without(es, i));
      }
    } else {
      UsedCons(Entry(key, val), es);
      assert KeysOf(p) == [key] + KeysOf(es);
    }
  }

  /** Eviction only removes entries from the back: the result is a prefix. */
  lemma {:induction false} TrimPrefix(es: seq<Entry>, drift: nat, maxAllow: int)
    ensures |Trim(es, drift, maxAllow)| <= |es|
    ensures Trim(es, drift, maxAllow) == es[..|Trim(es, drift, maxAllow)|]
    decreases |es|
  {
    if maxAllow > 0 && Used(es) + drift > maxAllow && es != [] {
      TrimPrefix(es[..|es| - 1], drift, maxAllow);
    }
  }

  /** After eviction a positive budget holds, provided the drift alone fits in it. */
  lemma {:induction false} TrimWithinBudget(es: seq<Entry>, drift: nat, maxAllow: int)
    requires maxAllow > 0 && drift <= maxAllow
    ensures Used(Trim(es, drift, maxAllow)) + drift <= maxAllow
    decreases |es|
  {
    if Used(es) + drift > maxAllow && es != [] {
      TrimWithinBudget(es[..|es| - 1], drift, maxAllow);
    }
  }

  /** Eviction stops as soon as the budget holds: the last entry it removed
      could not have stayed. */
  lemma {:induction false} TrimMinimal(es: seq<Entry>, drift: nat, maxAllow: int)
    requires |Trim(es, drift, maxAllow)| < |es|
    ensures maxAllow > 0
    ensures Used(es[..|Trim(es, drift, maxAllow)| + 1]) + drift > maxAllow
    decreases |es|
  {
    var t := Trim(es, drift, maxAllow);
    assert maxAllow > 0 && Used(es) + drift > maxAllow && es != [];
    var es' := es[..|es| - 1];
    if |t| < |es'| {
      TrimMinimal(es', drift, maxAllow);
      assert es'[..|t| + 1] == es[..|t| + 1];
    } else {
      TrimPrefix(es', drift, maxAllow);
      assert es[..|t| + 1] == es;
    }
  }

  /** A list's total is at least that of any prefix of it. */
  lemma {:induction false} UsedPrefix(es: seq<Entry>, n: nat)
    requires n <= |es|
    ensures Used(es[..n]) <= Used(es)
  {
    assert es == es[..n] + es[n..];
    UsedAppend(es[..n], es[n..]);
  }

  /** The entry `Set` just stored survives eviction if and only if the budget
      is unbounded or the entry fits into it beside the drift. */
  lemma {:induction false} FrontSurvives(es: seq<Entry>, drift: nat, maxAllow: int)
    requires es != []
    ensures Trim(es, drift, maxAllow) != [] <==> maxAllow <= 0 || Size(es[0]) + drift <= maxAllow
  {
    var t := Trim(es, drift, maxAllow);
    TrimPrefix(es, drift, maxAllow);
    assert es[..1] == [es[0]];
    UsedCons(es[0], []);
    assert [es[0]] + [] == [es[0]];
    if maxAllow > 0 && Size(es[0]) + drift <= maxAllow {
      TrimKeepsFittingPrefix(es, 1, drift, maxAllow);
    } else if maxAllow > 0 {
      // every non-empty prefix costs at least the front entry, so the loop cannot stop early
      TrimStops(es, drift, maxAllow);
    }
  }

  /** Eviction ends within the budget or with an empty list. */
  lemma {:induction false} TrimStops(es: seq<Entry>, drift: nat, maxAllow: int)
    ensures var t := Trim(es, drift, maxAllow);
      maxAllow <= 0 || t == [] || Used(t) + drift <= maxAllow
    decreases |es|
  {
    if maxAllow > 0 && Used(es) + drift > maxAllow && es != [] {
      TrimStops(es[..|es| - 1], drift, maxAllow);
    }
  }

  /** A prefix that fits into the budget is never evicted. */
  lemma {:induction false} TrimKeepsFittingPrefix(es: seq<Entry>, n: nat, drift: nat, maxAllow: int)
    requires n <= |es| && Used(es[..n]) + drift <= maxAllow
    ensures n <= |Trim(es, drift, maxAllow)|
    decreases |es|
  {
    assert n == |es| ==> es[..n] == es;
    if maxAllow > 0 && Used(es) + drift > maxAllow && es != [] {
      if n < |es| {
        assert es[..|es| - 1][..n] == es[..n];
        TrimKeepsFittingPrefix(es[..|es| - 1], n, drift, maxAllow);
      }
    }
  }

  /** One turn of the eviction loop: the list `p[..n]` loses its back entry. */
  lemma {:induction false} EvictStep(p: seq<Entry>, n: nat, drift: nat, maxAllow: int)
    requires 0 < n <= |p| && maxAllow > 0 && Used(p[..n]) + drift > maxAllow
    ensures Trim(p[..n], drift, maxAllow) == Trim(p[..n - 1], drift, maxAllow)
    ensures p[..n][..n - 1] == p[..n - 1] && p[..n][n - 1] == p[n - 1]
    ensures Reversed(p[n - 1..]) == Reversed(p[n..]) + [p[n - 1]]
  {
    assert p[..n][..n - 1] == p[..n - 1];
    assert p[n - 1..] == [p[n - 1]] + p[n..];
    ReversedCons(p[n - 1], p[n..]);
  }

  lemma {:induction false} AppendAssoc<T>(a: seq<T>, b: seq<T>, c: seq<T>)
    ensures a + b + c == a + (b + c)
  {
  }

  lemma {:induction false} ReversedCons<T>(x: T, s: seq<T>)
    ensures Reversed([x] + s) == Reversed(s) + [x]
  {
    assert ([x] + s)[1..] == s;
  }

  /** `Keys` walks from the back: the `k`-th key of the reversed list is the
      `k`-th from the end. */
  lemma {:induction false} ReversedAt<T>(s: seq<T>, k: nat)
    requires k < |s|
    ensures |Reversed(s)| == |s| && Reversed(s)[k] == s[|s| - 1 - k]
  {
    if k < |s| - 1 {
      ReversedAt(s[1..], k);
    } else {
      ReversedLength(s[1..]);
    }
  }

  lemma {:induction false} ReversedLength<T>(s: seq<T>)
    ensures |Reversed(s)| == |s|
  {
    if s != [] {
      ReversedLength(s[1..]);
    }
  }

  /** The key map a list of entries determines: each key to its entry's value. */
  function ToMap(es: seq<Entry>): map<string, seq<byte>>
  {
    if es == [] then map[] else ToMap(es[1..])[es[0].key := es[0].val]
  }

  /** The list and the key map describe the same entries, each key once. */
  ghost predicate Agree(es: seq<Entry>, m: map<string, seq<byte>>)
  {
    Distinct(KeysOf(es)) && m == ToMap(es)
  }

  lemma {:induction false} ToMapCons(e: Entry, es: seq<Entry>)
    ensures ToMap([e] + es) == ToMap(es)[e.key := e.val]
  {
    assert ([e] + es)[1..] == es;
  }

  lemma {:induction false} DistinctTail(es: seq<Entry>)
    requires es != [] && Distinct(KeysOf(es))
    ensures Distinct(KeysOf(es[1..])) && es[0].key !in KeysOf(es[1..])
  {
    assert KeysOf(es[1..]) == KeysOf(es)[1..];
  }

  /** The map has a key exactly when some entry of the list has it. */
  lemma {:induction false} ToMapDomain(es: seq<Entry>, k: string)
    ensures k in ToMap(es) <==> k in KeysOf(es)
  {
    if es != [] {
      ToMapDomain(es[1..], k);
      assert KeysOf(es) == [es[0].key] + KeysOf(es[1..]);
    }
  }

  /** With distinct keys, the map holds each entry's own value. */
  lemma {:induction false} ToMapAt(es: seq<Entry>, i: nat)
    requires i < |es| && Distinct(KeysOf(es))
    ensures es[i].key in ToMap(es) && ToMap(es)[es[i].key] == es[i].val
  {
    if i > 0 {
      DistinctTail(es);
      assert KeysOf(es)[0] != KeysOf(es)[i];
      ToMapAt(es[1..], i - 1);
    }
  }

  /** With distinct keys, the map has as many keys as the list has entries. */
  lemma {:induction false} ToMapSize(es: seq<Entry>)
    requires Distinct(KeysOf(es))
    ensures |ToMap(es)| == |es|
  {
    if es != [] {
      DistinctTail(es);
      ToMapSize(es[1..]);
      ToMapDomain(es[1..], es[0].key);
    }
  }

  /** Unlinking an entry deletes its key from the map. */
  lemma {:induction false} ToMapWithout(es: seq<Entry>, i: nat)
    requires i < |es| && Distinct(KeysOf(es))
    ensures ToMap(Without(es, i)) == ToMap(es) - {es[i].key}
  {
    DistinctTail(es);
    var rest := es[1..];
    ToMapDomain(rest, es[0].key);
    if i == 0 {
      assert Without(es, 0) == rest;
      assert ToMap(rest) == ToMap(es) - {es[0].key};
    } else {
      assert KeysOf(es)[0] != KeysOf(es)[i];
      assert Without(es, i) == [es[0]] + Without(rest, i - 1);
      ToMapCons(es[0], Without(rest, i - 1));
      ToMapWithout(rest, i - 1);
      UpdateThenRemove(ToMap(rest), es[0].key, es[0].val, es[i].key);
    }
  }

  lemma {:induction false} UpdateThenRemove(m: map<string, seq<byte>>, k: string, v: seq<byte>, r: string)
    requires k != r
    ensures m[k := v] - {r} == (m - {r})[k := v]
  {
  }

  /** Storing a value updates the map at that key and nowhere else. */
  lemma {:induction false} ToMapPut(es: seq<Entry>, k: string, v: seq<byte>)
    requires Distinct(KeysOf(es))
    ensures ToMap(Put(es, k, v)) == ToMap(es)[k := v]
  {
    if k in KeysOf(es) {
      var i := IndexOf(es, k);
      ToMapCons(Entry(k, v), Without(es, i));
      ToMapWithout(es, i);
      assert (ToMap(es) - {k})[k := v] == ToMap(es)[k := v];
    } else {
      ToMapCons(Entry(k, v), es);
    }
  }

  lemma {:induction false} AgreePut(es: seq<Entry>, m: map<string, seq<byte>>, k: string, v: seq<byte>)
    requires Agree(es, m)
    ensures Agree(Put(es, k, v), m[k := v])
  {
    PutShape(es, k, v);
    ToMapPut(es, k, v);
  }

  lemma {:induction false} AgreeWithout(es: seq<Entry>, m: map<string, seq<byte>>, i: nat)
    requires Agree(es, m) && i < |es|
    ensures Agree(Without(es, i), m - {es[i].key})
  {
    DistinctWithout(es, i);
    ToMapWithout(es, i);
  }

  /** Under `Agree`, an entry is on the list exactly when the map holds it. */
  lemma {:induction false} AgreeMember(es: seq<Entry>, m: map<string, seq<byte>>, e: Entry)
    requires Agree(es, m)
    ensures e in es <==> e.key in m && m[e.key] == e.val
  {
    ToMapDomain(es, e.key);
    if e in es {
      var i :| 0 <= i < |es| && es[i] == e;
      ToMapAt(es, i);
    }
    if e.key in m {
      var i := IndexOf(es, e.key);
      ToMapAt(es, i);
    }
  }

  /** Every entry of `es` fired exactly once: a permutation of a list whose keys are distinct. */
  ghost predicate OncePerEntry(fired: seq<Entry>, es: seq<Entry>)
  {
    && |fired| == |es|
    && Distinct(KeysOf(fired))
    && forall e :: e in fired <==> e in es
  }

  /** A key still in the map has not fired yet, so firing it keeps the keys distinct. */
  lemma {:induction false} FireOne(fired: seq<Entry>, e: Entry, items: map<string, seq<byte>>)
    requires Distinct(KeysOf(fired)) && e.key in items
    requires forall f :: f in fired ==> f.key !in items
    ensures Distinct(KeysOf(fired + [e]))
  {
    var ks := KeysOf(fired + [e]);
    forall i, j | 0 <= i < j < |ks| ensures ks[i] != ks[j] {
      if j == |fired| {
        assert fired[i] in fired;
      } else {
        assert ks[i] == KeysOf(fired)[i] && ks[j] == KeysOf(fired)[j];
      }
    }
  }

  /** `New`: a negative budget is refused; otherwise an empty cache. */
  method New(maxAllow: int, onEvicted: bool) returns (c: Cache?, err: Option<string>)
    ensures err.Some? <==> maxAllow < 0
    ensures err.Some? ==> (c == null
      && err.value == "the maximum allowed value must be greater than or equal to 0")
    ensures err.None? ==> (c != null && fresh(c) && c.Valid()
      && c.maxAllow == maxAllow && c.onEvicted == onEvicted
      && c.ll == [] && c.usedBytes == 0 && c.evicted == [])
  {
    if maxAllow < 0 {
      return null, Some("the maximum allowed value must be greater than or equal to 0");
    }
    c := new Cache(maxAllow, onEvicted);
    err := None;
  }

  class Cache {
    /** `MaxAllow`: the byte budget, 0 meaning unbounded. */
    const maxAllow: int
    /** Whether an `OnEvicted` callback was supplied. */
    const onEvicted: bool
    var usedBytes: int
    /** The recency list, most recently used first. */
    var ll: seq<Entry>
    var items: map<string, seq<byte>>
    /** Bytes that `Purge` took off the list but left in `usedBytes`. */
    ghost var purged: nat
    /** The calls made to the eviction callback, in order. */
    ghost var evicted: seq<Entry>

    ghost predicate Linked()
      reads this
    {
      Agree(ll, items)
    }

    /** The list and map agree and `usedBytes` counts every live entry (plus what `Purge` left). */
    ghost predicate Consistent()
      reads this
    {
      && maxAllow >= 0
      && Linked()
      && usedBytes == Used(ll) + purged
      && (maxAllow > 0 ==> purged <= maxAllow)
    }

    /** The state between operations: consistent and within a positive budget. */
    ghost predicate Valid()
      reads this
    {
      Consistent() && (maxAllow > 0 ==> usedBytes <= maxAllow)
    }

    constructor (maxAllow: int, onEvicted: bool)
      requires maxAllow >= 0
      ensures Valid()
      ensures this.maxAllow == maxAllow && this.onEvicted == onEvicted
      ensures ll == [] && items == map[] && usedBytes == 0 && purged == 0 && evicted == []
    {
      this.maxAllow := maxAllow;
      this.onEvicted := onEvicted;
      usedBytes := 0;
      ll := [];
      items := map[];
      purged := 0;
      evicted := [];
    }

    /** A hit returns the key's value and moves its entry to the front; a miss changes nothing. */
    method Get(key: string) returns (val: seq<byte>, ok: bool)
      requires Valid()
      modifies this`ll
      ensures Valid()
      ensures ok == (key in KeysOf(old(ll)))
      ensures ok ==> var i := IndexOf(old(ll), key);
        val == old(ll)[i].val && ll == Promote(old(ll), i)
      ensures !ok ==> ll == old(ll) && val == []
    {
      ToMapDomain(ll, key);
      if key in items {
        var i := IndexOf(ll, key);
        ToMapAt(ll, i);
        PromoteIsPut(ll, i);
        AgreePut(ll, items, key, items[key]);
        assert items[key := items[key]] == items;
        PromoteKeeps(ll, i);
        ll := Promote(ll, i);
        val, ok := items[key], true;
      } else {
        val, ok := [], false;
      }
    }

    /** Stores `val` under `key` at the front, then evicts from the back while
        a positive budget is exceeded; each eviction fires the callback. */
    method Set(key: string, val: seq<byte>)
      requires Valid()
      modifies this
      ensures Valid()
      ensures ll == Trim(Put(old(ll), key, val), purged, maxAllow)
      ensures purged == old(purged)
      ensures evicted == old(evicted)
        + (if onEvicted then Reversed(Put(old(ll), key, val)[|ll|..]) else [])
    {
      ghost var p := Put(ll, key, val);
      ToMapDomain(ll, key);
      PutShape(ll, key, val);
      AgreePut(ll, items, key, val);
      if key in items {
        var i := IndexOf(ll, key);
        var e := ll[i];
        ll := [Entry(key, val)] + Without(ll, i);
        usedBytes := usedBytes + |val| - |e.val|;
        items := items[key := val];
      } else {
        ll := [Entry(key, val)] + ll;
        items := items[key := val];
        usedBytes := usedBytes + ByteLen(key) + |val|;
      }
      assert ll == p;
      EvictOverBudget();
    }

    /** The loop that ends `Set`: remove the oldest entry while a positive
        budget is exceeded. */
    method EvictOverBudget()
      requires Consistent()
      modifies this
      ensures Valid()
      ensures ll == Trim(old(ll), purged, maxAllow) && purged == old(purged)
      ensures evicted == old(evicted) + (if onEvicted then Reversed(old(ll)[|ll|..]) else [])
    {
      ghost var p := ll;
      ghost var fired := evicted;
      assert p[|ll|..] == [] && fired + [] == fired;
      while maxAllow > 0 && usedBytes > maxAllow
        invariant Consistent() && purged == old(purged)
        invariant |ll| <= |p| && ll == p[..|ll|]
        invariant Trim(ll, purged, maxAllow) == Trim(p, purged, maxAllow)
        invariant onEvicted ==> evicted == fired + Reversed(p[|ll|..])
        invariant !onEvicted ==> evicted == fired
        decreases |ll|
      {
        EvictStep(p, |ll|, purged, maxAllow);
        ghost var gone := Reversed(p[|ll|..]);
        var k, v, _ := RemoveOldest();
        AppendAssoc(fired, gone, [Entry(k, v)]);
      }
    }

    /** Removes `key` if present, firing the callback and giving back its bytes;
        the other entries keep their order. */
    method Del(key: string) returns (ok: bool)
      requires Valid()
      modifies this
      ensures Valid()
      ensures ok == (key in KeysOf(old(ll))) && key !in items && key !in KeysOf(ll)
      ensures ok ==> var i := IndexOf(old(ll), key);
        && ll == Without(old(ll), i)
        && usedBytes == old(usedBytes) - Size(old(ll)[i])
        && evicted == old(evicted) + (if onEvicted then [old(ll)[i]] else [])
      ensures !ok ==> (ll == old(ll) && items == old(items)
        && usedBytes == old(usedBytes) && evicted == old(evicted))
      ensures purged == old(purged)
    {
      ToMapDomain(ll, key);
      if key in items {
        var i := IndexOf(ll, key);
        var e := ll[i];
        UsedWithout(ll, i);
        DistinctWithout(ll, i);
        RemoveElement(i);
        UpdateUsedBytes(e);
        return true;
      }
      return false;
    }

    /** Removes and returns the back (least recently used) entry, if any. */
    method RemoveOldest() returns (key: string, val: seq<byte>, ok: bool)
      requires Consistent()
      modifies this
      ensures Consistent()
      ensures ok == (old(ll) != [])
      ensures ok ==> (Entry(key, val) == old(ll)[|old(ll)| - 1]
        && ll == old(ll)[..|old(ll)| - 1]
        && items == old(items) - {key}
        && usedBytes == old(usedBytes) - Size(Entry(key, val)))
      ensures !ok ==> (ll == old(ll) && items == old(items) && usedBytes == old(usedBytes)
        && key == "" && val == [])
      ensures evicted == old(evicted) + (if ok && onEvicted then [Entry(key, val)] else [])
      ensures purged == old(purged)
      ensures old(Valid()) ==> Valid()
    {
      if ll != [] {
        var i := |ll| - 1;
        var e := ll[i];
        UsedWithout(ll, i);
        assert Without(ll, i) == ll[..i];
        RemoveElement(i);
        UpdateUsedBytes(e);
        return e.key, e.val, true;
      }
      return "", [], false;
    }

    /** `removeElement`: unlink the entry from the list and the map and fire the callback. */
    method RemoveElement(i: nat)
      requires Linked() && i < |ll|
      modifies this`ll, this`items, this`evicted
      ensures Linked()
      ensures ll == Without(old(ll), i) && items == old(items) - {old(ll)[i].key}
      ensures evicted == old(evicted) + (if onEvicted then [old(ll)[i]] else [])
    {
      var e := ll[i];
      AgreeWithout(ll, items, i);
      ll := Without(ll, i);
      items := items - {e.key};
      if onEvicted {
        evicted := evicted + [e];
      }
    }

    /** `updateUsedBytes`: give back the bytes of a removed entry. */
    method UpdateUsedBytes(e: Entry)
      modifies this`usedBytes
      ensures usedBytes == old(usedBytes) - Size(e)
    {
      usedBytes := usedBytes - Size(e);
    }

    /** Peeks at the back entry without changing anything. */
    method GetOldest() returns (key: string, val: seq<byte>, ok: bool)
      requires Valid()
      ensures ok <==> ll != []
      ensures ok ==> Entry(key, val) == ll[|ll| - 1]
      ensures !ok ==> key == "" && val == []
    {
      if ll != [] {
        var e := ll[|ll| - 1];
        return e.key, e.val, true;
      }
      return "", [], false;
    }

    /** Empties the map and the list, firing the callback once per entry,
        but leaves `usedBytes` as it was. */
    method Purge()
      requires Valid()
      modifies this
      ensures Valid()
      ensures ll == [] && items == map[]
      ensures usedBytes == old(usedBytes) && purged == old(usedBytes)
      ensures onEvicted ==> (|evicted| >= |old(evicted)|
        && evicted[..|old(evicted)|] == old(evicted)
        && OncePerEntry(evicted[|old(evicted)|..], old(ll)))
      ensures !onEvicted ==> evicted == old(evicted)
    {
      ghost var fired := DeleteAllItems();
      ll := [];
      purged := usedBytes;
      assert onEvicted ==> evicted[|old(evicted)|..] == fired;
    }

    /** The loop of `Purge`: delete every key of the map, in any order,
        firing the callback for its entry. */
    method DeleteAllItems() returns (ghost fired: seq<Entry>)
      requires Valid()
      modifies this`items, this`evicted
      ensures items == map[] && OncePerEntry(fired, ll)
      ensures onEvicted ==> evicted == old(evicted) + fired
      ensures !onEvicted ==> evicted == old(evicted)
    {
      ghost var m0 := items;
      fired := [];
      while items != map[]
        invariant items.Keys <= m0.Keys
        invariant forall k :: k in items ==> items[k] == m0[k]
        invariant onEvicted ==> evicted == old(evicted) + fired
        invariant !onEvicted ==> evicted == old(evicted)
        invariant |fired| + |items| == |m0|
        invariant forall e :: e in fired <==> e.key in m0 && e.key !in items && e.val == m0[e.key]
        invariant Distinct(KeysOf(fired))
        decreases |items|
      {
        var k :| k in items;
        var e := Entry(k, items[k]);
        FireOne(fired, e, items);
        if onEvicted {
          evicted := evicted + [e];
          assert evicted == old(evicted) + (fired + [e]);
        }
        fired := fired + [e];
        assert (items - {k}).Keys == items.Keys - {k};
        items := items - {k};
      }
      ToMapSize(ll);
      forall e ensures e in fired <==> e in ll {
        AgreeMember(ll, m0, e);
      }
    }

    /** `Purge` as evidently intended: the same, and `usedBytes` back to 0. */
    method Clear()
      requires Valid()
      modifies this
      ensures Valid()
      ensures ll == [] && items == map[] && usedBytes == 0 && purged == 0
      ensures onEvicted ==> (|evicted| >= |old(evicted)|
        && evicted[..|old(evicted)|] == old(evicted)
        && OncePerEntry(evicted[|old(evicted)|..], old(ll)))
      ensures !onEvicted ==> evicted == old(evicted)
    {
      Purge();
      usedBytes := 0;
      purged := 0;
    }

    /** Whether `key` is cached; no recency change. */
    function Contains(key: string): (ok: bool)
      reads this
      requires Valid()
      ensures ok <==> key in KeysOf(ll)
    {
      ToMapDomain(ll, key);
      key in items
    }

    /** All keys, least recently used first. */
    method Keys() returns (keys: seq<string>)
      requires Valid()
      ensures keys == Reversed(KeysOf(ll))
    {
      ToMapSize(ll);
      var a := new string[|items|];
      var i := 0;
      while i < |ll|
        invariant 0 <= i <= |ll| == a.Length
        invariant forall j :: 0 <= j < i ==> a[j] == ll[|ll| - 1 - j].key
      {
        a[i] := ll[|ll| - 1 - i].key;
        i := i + 1;
      }
      keys := a[..];
      ReversedLength(KeysOf(ll));
      forall j | 0 <= j < |ll| ensures keys[j] == Reversed(KeysOf(ll))[j] {
        ReversedAt(KeysOf(ll), j);
      }
    }

    /** Element-wise comparison of two key lists. */
    method Equal(x: seq<string>, y: seq<string>) returns (eq: bool)
      ensures eq <==> x == y
    {
      if |x| != |y| {
        return false;
      }
      var i := 0;
      while i < |x|
        invariant 0 <= i <= |x|
        invariant x[..i] == y[..i]
      {
        if x[i] != y[i] {
          return false;
        }
        assert x[..i + 1] == x[..i] + [x[i]] && y[..i + 1] == y[..i] + [y[i]];
        i := i + 1;
      }
      assert x == x[..i] && y == y[..i];
      return true;
    }
  }

  /** Moving an entry to the front is the same as storing its value again. */
  lemma {:induction false} PromoteIsPut(es: seq<Entry>, i: nat)
    requires i < |es| && Distinct(KeysOf(es))
    ensures Promote(es, i) == Put(es, es[i].key, es[i].val)
  {
    assert es[i].key == KeysOf(es)[i];
    assert IndexOf(es, es[i].key) == i;
  }

  // ---------------------------------------------------------------------
  // The scenarios of lru/lru_test.go, and the Purge finding

  /** TestGet: a stored value is found, a missing key is not. */
  method GetScenario() returns (hit: seq<byte>, ok1: bool, ok2: bool)
    ensures ok1 && hit == Utf8("111") && !ok2
  {
    var c := new Cache(0, false);
    c.Set("k1", Utf8("111"));
    hit, ok1 := c.Get("k1");
    var _, ok := c.Get("k2");
    ok2 := ok;
  }

  /** TestAdd: overwriting adjusts `usedBytes` by the size difference. */
  method AddScenario() returns (used: int)
    ensures used == 14
  {
    var v3, v3', v4, v4' := Utf8("33333"), Utf8("333333"), Utf8("4"), Utf8("4444");
    AddTrace(v3, v3', v4, v4');
    var c := new Cache(0, false);
    c.Set("k3", v3);
    c.Set("k3", v3');
    c.Set("k4", v4);
    c.Set("k4", v4');
    used := c.usedBytes;
  }

  /** The lists `AddScenario` goes through, and the size of the last one. */
  lemma {:induction false} AddTrace(v3: seq<byte>, v3': seq<byte>, v4: seq<byte>, v4': seq<byte>)
    requires v3 == Utf8("33333") && v3' == Utf8("333333") && v4 == Utf8("4") && v4' == Utf8("4444")
    ensures Trim(Put([], "k3", v3), 0, 0) == [Entry("k3", v3)]
    ensures Trim(Put([Entry("k3", v3)], "k3", v3'), 0, 0) == [Entry("k3", v3')]
    ensures Trim(Put([Entry("k3", v3')], "k4", v4), 0, 0) == [Entry("k4", v4), Entry("k3", v3')]
    ensures Trim(Put([Entry("k4", v4), Entry("k3", v3')], "k4", v4'), 0, 0)
         == [Entry("k4", v4'), Entry("k3", v3')]
    ensures Used([Entry("k4", v4'), Entry("k3", v3')]) == 14
  {
    RestoreFront(Entry("k3", v3), [], v3');
    assert [Entry("k3", v3)] + [] == [Entry("k3", v3)];
    assert KeysOf([Entry("k3", v3')]) == ["k3"];
    RestoreFront(Entry("k4", v4), [Entry("k3", v3')], v4');
    AddSizes(v3', v4');
    UsedCons(Entry("k3", v3'), []);
    UsedCons(Entry("k4", v4'), [Entry("k3", v3')]);
  }

  lemma {:induction false} AddSizes(v3': seq<byte>, v4': seq<byte>)
    requires v3' == Utf8("333333") && v4' == Utf8("4444")
    ensures Size(Entry("k3", v3')) == 8 && Size(Entry("k4", v4')) == 6
  {
    ByteLenBounds("k3"); ByteLenBounds("k4");
    ByteLenBounds("333333"); ByteLenBounds("4444");
  }

  /** Storing again the key at the front replaces its value in place. */
  lemma {:induction false} RestoreFront(e: Entry, es: seq<Entry>, v: seq<byte>)
    ensures Put([e] + es, e.key, v) == [Entry(e.key, v)] + es
  {
    assert KeysOf([e] + es)[0] == e.key;
    assert Without([e] + es, 0) == es;
  }

  /** TestDel: a deleted key is no longer found. */
  method DelScenario() returns (deleted: bool, found: bool)
    ensures deleted && !found
  {
    var c := new Cache(0, false);
    c.Set("k1", Utf8("111"));
    assert KeysOf(c.ll) == ["k1"];
    deleted := c.Del("k1");
    var _, ok := c.Get("k1");
    found := ok;
  }

  /** TestRemoveOldest: with room for two entries, the third evicts the oldest. */
  method RemoveOldestScenario() returns (found: bool, len: nat)
    ensures !found && len == 2
  {
    var e1, e2, e3 := Entry("k1", Utf8("v1")), Entry("k2", Utf8("v2")), Entry("k3", Utf8("v3"));
    RemoveOldestTrace(e1, e2, e3);
    var c := new Cache(8, false);
    c.Set("k1", Utf8("v1"));
    c.Set("k2", Utf8("v2"));
    c.Set("k3", Utf8("v3"));
    var _, ok := c.Get("k1");
    found, len := ok, |c.ll|;
  }

  /** Two entries of 4 bytes, stored one after the other, fill a budget of 8. */
  lemma {:induction false} FillTwo(e1: Entry, e2: Entry)
    requires e1 == Entry("k1", Utf8("v1")) && e2 == Entry("k2", Utf8("v2"))
    ensures Size(e1) == 4 && Size(e2) == 4
    ensures Trim(Put([], "k1", e1.val), 0, 8) == [e1]
    ensures Trim(Put([e1], "k2", e2.val), 0, 8) == [e2, e1]
    ensures Used([e2, e1]) == 8
  {
    ByteLenBounds("k1"); ByteLenBounds("k2"); ByteLenBounds("v1"); ByteLenBounds("v2");
    UsedCons(e1, []);
    assert KeysOf([e1]) == ["k1"];
    UsedCons(e2, [e1]);
  }

  /** The lists `RemoveOldestScenario` goes through. */
  lemma {:induction false} RemoveOldestTrace(e1: Entry, e2: Entry, e3: Entry)
    requires e1 == Entry("k1", Utf8("v1")) && e2 == Entry("k2", Utf8("v2")) && e3 == Entry("k3", Utf8("v3"))
    ensures Trim(Put([], "k1", e1.val), 0, 8) == [e1]
    ensures Trim(Put([e1], "k2", e2.val), 0, 8) == [e2, e1]
    ensures Trim(Put([e2, e1], "k3", e3.val), 0, 8) == [e3, e2]
    ensures "k1" !in KeysOf([e3, e2])
  {
    FillTwo(e1, e2);
    assert Size(e3) == 4 by {
      ByteLenBounds("k3"); ByteLenBounds("v3");
    }
    assert KeysOf([e2, e1]) == ["k2", "k1"];
    assert Put([e2, e1], "k3", e3.val) == [e3, e2, e1];
    EvictOneOfThree([e3, e2, e1], 8);
    assert [e3, e2, e1][..2] == [e3, e2];
    assert KeysOf([e3, e2]) == ["k3", "k2"];
  }

  /** Three entries of 4 bytes under a budget of 8: only the back one goes. */
  lemma {:induction false} EvictOneOfThree(p: seq<Entry>, maxAllow: int)
    requires |p| == 3 && maxAllow == 8 && Size(p[0]) == 4 && Size(p[1]) == 4 && Size(p[2]) == 4
    ensures Trim(p, 0, maxAllow) == p[..2]
  {
    assert Used(p[..2]) == 8 by {
      assert p[..2] == [p[0]] + [p[1]];
      UsedCons(p[0], [p[1]]);
      UsedCons(p[1], []);
      assert [p[1]] + [] == [p[1]];
    }
    assert Used(p) == 12 by {
      assert p == p[..2] + [p[2]];
      UsedAppend(p[..2], [p[2]]);
      UsedCons(p[2], []);
      assert [p[2]] + [] == [p[2]];
    }
    assert p[..|p| - 1] == p[..2];
  }

  /** TestKeys: keys come back oldest first. */
  method KeysScenario() returns (keys: seq<string>)
    ensures keys == ["k5", "k6"]
  {
    var c := new Cache(0, false);
    c.Set("k5", Utf8("5"));
    assert c.ll == [Entry("k5", Utf8("5"))];
    c.Set("k6", Utf8("6"));
    assert KeysOf([Entry("k5", Utf8("5"))]) == ["k5"];
    assert c.ll == [Entry("k6", Utf8("6")), Entry("k5", Utf8("5"))];
    keys := c.Keys();
    assert KeysOf(c.ll) == ["k6", "k5"];
    assert Reversed(["k6", "k5"]) == Reversed(["k5"]) + ["k6"];
    assert Reversed(["k5"]) == ["k5"];
  }

  /** As written: after `Purge` the bytes of the purged entries still count, so
      in a cache sized for two entries a fresh entry is evicted at once. */
  method PurgeKeepsBytesCounted() returns (found: bool)
    ensures !found
  {
    var e1, e2 := Entry("k1", Utf8("v1")), Entry("k2", Utf8("v2"));
    FillTwo(e1, e2);
    PurgeDriftEvicts(e1, 8, 8);
    var c := new Cache(8, false);
    c.Set("k1", Utf8("v1"));
    c.Set("k2", Utf8("v2"));
    c.Purge();
    c.Set("k1", Utf8("v1"));
    var _, ok := c.Get("k1");
    found := ok;
  }

  /** Corrected: after `Clear` the same entry is kept. */
  method ClearFreesBytes() returns (found: bool)
    ensures found
  {
    var e1, e2 := Entry("k1", Utf8("v1")), Entry("k2", Utf8("v2"));
    FillTwo(e1, e2);
    PurgeDriftEvicts(e1, 8, 8);
    var c := new Cache(8, false);
    c.Set("k1", Utf8("v1"));
    c.Set("k2", Utf8("v2"));
    c.Clear();
    c.Set("k1", Utf8("v1"));
    var _, ok := c.Get("k1");
    found := ok;
  }

  /** In general: after a purge that left `drift` bytes counted, a stored entry
      survives only if it fits beside them, whereas after `Clear` it survives
      whenever it fits the budget alone. */
  lemma {:induction false} PurgeDriftEvicts(e: Entry, drift: nat, maxAllow: int)
    requires 0 < maxAllow && Size(e) <= maxAllow < Size(e) + drift
    ensures Trim(Put([], e.key, e.val), drift, maxAllow) == []
    ensures Trim(Put([], e.key, e.val), 0, maxAllow) == [e]
  {
    assert Put([], e.key, e.val) == [e];
    FrontSurvives([e], drift, maxAllow);
    FrontSurvives([e], 0, maxAllow);
  }
}
