/**
 * The byte-budgeted LRU cache of geecache/lru/lru.go.
 *
 * The Go cache keeps a doubly-linked list of entries (most recently used at
 * the front) and a map from each key to its list element. Here the list is a
 * sequence `ll` (index 0 is the front) and the map sends each key to the value
 * held by its element; `Mirrors` is the invariant that ties the two together.
 * Values are generic; `valueLen` plays the part of the `Value.Len` method.
 * The `OnEvicted` callback is represented by the log `evicted` of the
 * entries it was called with (kept only when a callback is set).
 */
module CacheLru {
  import opened Wrappers
  import opened Utf8

  datatype Entry<V> = Entry(key: string, value: V)

  /** The bytes an entry is charged for: the UTF-8 length of its key (Go's `len` of a string) plus its value length. */
  function EntrySize<V>(e: Entry<V>, valueLen: V -> nat): nat {
    |Encode(e.key)| + valueLen(e.value)
  }

  /** Total charge of a list of entries. */
  function TotalSize<V>(ll: seq<Entry<V>>, valueLen: V -> nat): nat
    decreases |ll|
  {
    if ll == [] then 0 else EntrySize(ll[0], valueLen) + TotalSize(ll[1..], valueLen)
  }

  function Reversed<T>(s: seq<T>): seq<T>
    decreases |s|
  {
    if s == [] then [] else Reversed(s[1..]) + [s[0]]
  }

  predicate DistinctKeys<V>(ll: seq<Entry<V>>) {
    forall i, j :: 0 <= i < j < |ll| ==> ll[i].key != ll[j].key
  }

  /** The keys held by the list. */
  ghost function KeySet<V>(ll: seq<Entry<V>>): set<string> {
    set j | 0 <= j < |ll| :: ll[j].key
  }

  /**
   * The map and the list hold the same keys, each key once in the list, with
   * the same values. The last clause, with the first two, says that every key
   * of the map is in the list (lemma MirrorsCover).
   */
  ghost predicate Mirrors<V>(ll: seq<Entry<V>>, cache: map<string, V>) {
    && DistinctKeys(ll)
    && (forall i :: 0 <= i < |ll| ==> ll[i].key in cache && cache[ll[i].key] == ll[i].value)
    && |cache| == |ll|
  }

  /** Position of `key` in the list, or -1. */
  function Position<V>(ll: seq<Entry<V>>, key: string): (i: int)
    ensures -1 <= i < |ll|
    ensures i == -1 <==> forall j :: 0 <= j < |ll| ==> ll[j].key != key
    ensures 0 <= i ==> ll[i].key == key
    decreases |ll|
  {
    if ll == [] then -1
    else if ll[0].key == key then 0
    else
      var j := Position(ll[1..], key);
      if j == -1 then
        assert forall j :: 1 <= j < |ll| ==> ll[j] == ll[1..][j - 1];
        -1
      else j + 1
  }

  /** list.MoveToFront on the element at position `i`. */
  function MoveToFront<V>(ll: seq<Entry<V>>, i: nat): seq<Entry<V>>
    requires i < |ll|
  {
    [ll[i]] + ll[..i] + ll[i + 1..]
  }

  /**
   * The list as `Add` leaves it before evicting: an existing entry moves to
   * the front with its value replaced; a new key is pushed at the front.
   */
  function Upserted<V>(ll: seq<Entry<V>>, key: string, value: V): seq<Entry<V>> {
    var i := Position(ll, key);
    if i < 0 then [Entry(key, value)] + ll
    else [Entry(key, value)] + ll[..i] + ll[i + 1..]
  }

  /** The change `Add` makes to `nBytes` as lru.go:60 and lru.go:65 write it. */
  function AddDeltaAsWritten<V>(ll: seq<Entry<V>>, key: string, value: V, valueLen: V -> nat): int {
    var i := Position(ll, key);
    if i < 0 then |Encode(key)| + valueLen(value)
    else valueLen(ll[i].value) - valueLen(value)
  }

  /** The change to `nBytes` that keeps it equal to the total charge: new length minus old. */
  function AddDeltaIntended<V>(ll: seq<Entry<V>>, key: string, value: V, valueLen: V -> nat): int {
    var i := Position(ll, key);
    if i < 0 then |Encode(key)| + valueLen(value)
    else valueLen(value) - valueLen(ll[i].value)
  }

  lemma SubsetSameSize<T>(a: set<T>, b: set<T>)
    requires a <= b && |a| == |b|
    ensures a == b
  {
    var d := b - a;
    assert b == a + d && a !! d;
    assert |d| == 0;
  }

  /** Distinct keys give as many keys as entries. */
  lemma {:induction false} DistinctKeySetSize<V>(ll: seq<Entry<V>>)
    requires DistinctKeys(ll)
    ensures |KeySet(ll)| == |ll|
    decreases |ll|
  {
    if ll != [] {
      var n := |ll| - 1;
      var front := ll[..n];
      assert DistinctKeys(front);
      DistinctKeySetSize(front);
      forall x ensures x in KeySet(ll) <==> x in KeySet(front) + {ll[n].key} {
        if x in KeySet(ll) {
          var j :| 0 <= j < |ll| && ll[j].key == x;
          if j < n { assert front[j].key == x; }
        }
        if x in KeySet(front) {
          var j :| 0 <= j < |front| && front[j].key == x;
          assert ll[j].key == x;
        }
      }
      assert KeySet(ll) == KeySet(front) + {ll[n].key};
      assert ll[n].key !in KeySet(front);
    } else {
      assert KeySet(ll) == {};
    }
  }

  /**
   * Every key of the map is in the list, so the map and the list hold exactly the
   * same keys (lru.go:32-33, 43-45, 63-64: every map entry is a list element).
   */
  lemma MirrorsCover<V>(ll: seq<Entry<V>>, cache: map<string, V>)
    requires Mirrors(ll, cache)
    ensures KeySet(ll) == cache.Keys
    ensures forall k :: k in cache <==> Position(ll, k) >= 0
  {
    DistinctKeySetSize(ll);
    assert KeySet(ll) <= cache.Keys;
    SubsetSameSize(KeySet(ll), cache.Keys);
    forall k ensures k in cache <==> Position(ll, k) >= 0 {
      if k in cache {
        assert k in KeySet(ll);
        var j :| 0 <= j < |ll| && ll[j].key == k;
      }
      if Position(ll, k) >= 0 {
        assert ll[Position(ll, k)].key == k;
      }
    }
  }

  /** Looking a key up in the map agrees with finding it in the list. */
  lemma MirrorsLookup<V>(ll: seq<Entry<V>>, cache: map<string, V>, key: string)
    requires Mirrors(ll, cache)
    ensures key in cache <==> Position(ll, key) >= 0
    ensures key in cache ==> cache[key] == ll[Position(ll, key)].value
  {
    MirrorsCover(ll, cache);
  }

  /** Removing the back entry from both the list and the map keeps them mirrored (lru.go:43-45). */
  lemma DropBackMirrors<V>(ll: seq<Entry<V>>, cache: map<string, V>)
    requires Mirrors(ll, cache) && ll != []
    ensures Mirrors(ll[..|ll| - 1], cache - {ll[|ll| - 1].key})
  {
    var n := |ll| - 1;
    var front, c' := ll[..n], cache - {ll[n].key};
    assert forall j :: 0 <= j < n ==> front[j] == ll[j] && ll[j].key != ll[n].key;
    assert ll[n].key in cache;
    assert |c'| == |cache| - 1;
  }

  /** A hit's entry, moved to the front, holds the key and its cached value, and the list stays mirrored. */
  lemma HitMovesToFront<V>(ll: seq<Entry<V>>, cache: map<string, V>, key: string)
    requires Mirrors(ll, cache) && key in cache
    ensures Position(ll, key) >= 0
    ensures var m := MoveToFront(ll, Position(ll, key));
            Mirrors(m, cache) && multiset(m) == multiset(ll) && m[0] == Entry(key, cache[key])
  {
    MirrorsLookup(ll, cache, key);
    MoveToFrontMirrors(ll, cache, Position(ll, key));
  }

  /** The position in the old list of the entry at position `j` after moving entry `i` to the front. */
  function MovedFrom(i: nat, j: nat): nat {
    if j == 0 then i else if j <= i then j - 1 else j
  }

  /** Moving an entry to the front reorders the list and keeps it mirrored (lru.go:33, 58). */
  lemma MoveToFrontMirrors<V>(ll: seq<Entry<V>>, cache: map<string, V>, i: nat)
    requires Mirrors(ll, cache) && i < |ll|
    ensures Mirrors(MoveToFront(ll, i), cache)
    ensures multiset(MoveToFront(ll, i)) == multiset(ll)
  {
    var m := MoveToFront(ll, i);
    assert |m| == |ll|;
    assert forall j :: 0 <= j < |m| ==> MovedFrom(i, j) < |ll| && m[j] == ll[MovedFrom(i, j)];
    forall p, q | 0 <= p < q < |m| ensures m[p].key != m[q].key {
      var a, b := MovedFrom(i, p), MovedFrom(i, q);
      assert a != b;
      if a < b { assert ll[a].key != ll[b].key; } else { assert ll[b].key != ll[a].key; }
    }
    assert ll == ll[..i] + [ll[i]] + ll[i + 1..];
    assert multiset(ll) == multiset(ll[..i]) + multiset([ll[i]]) + multiset(ll[i + 1..]);
  }

  /** Pushing a new key at the front keeps the list and the map mirrored (lru.go:63-64). */
  lemma PushFrontMirrors<V>(ll: seq<Entry<V>>, cache: map<string, V>, key: string, value: V)
    requires Mirrors(ll, cache) && Position(ll, key) == -1
    ensures Mirrors([Entry(key, value)] + ll, cache[key := value])
  {
    MirrorsCover(ll, cache);
    var u := [Entry(key, value)] + ll;
    assert key !in cache;
    assert |cache[key := value]| == |cache| + 1;
    assert forall j :: 0 < j < |u| ==> u[j] == ll[j - 1] && u[j].key != key;
    forall p, q | 0 <= p < q < |u| ensures u[p].key != u[q].key {
      if p > 0 { assert ll[p - 1].key != ll[q - 1].key; }
    }
  }

  /** Replacing the value of the front entry in both the list and the map keeps them mirrored (lru.go:61). */
  lemma ReplaceFrontMirrors<V>(m: seq<Entry<V>>, cache: map<string, V>, value: V)
    requires Mirrors(m, cache) && m != []
    ensures Mirrors([Entry(m[0].key, value)] + m[1..], cache[m[0].key := value])
  {
    var key := m[0].key;
    var u := [Entry(key, value)] + m[1..];
    assert key in cache && |cache[key := value]| == |cache|;
    assert forall j :: 0 < j < |u| ==> u[j] == m[j] && m[j].key != key;
    forall p, q | 0 <= p < q < |u| ensures u[p].key != u[q].key {
      assert m[p].key != m[q].key;
    }
  }

  /** The first phase of `Add` keeps the list and the map mirrored and puts the key at the front. */
  lemma UpsertedMirrors<V>(ll: seq<Entry<V>>, cache: map<string, V>, key: string, value: V)
    requires Mirrors(ll, cache)
    ensures Mirrors(Upserted(ll, key, value), cache[key := value])
    ensures Upserted(ll, key, value)[0] == Entry(key, value)
  {
    var i := Position(ll, key);
    if i < 0 {
      PushFrontMirrors(ll, cache, key, value);
      assert Upserted(ll, key, value) == [Entry(key, value)] + ll;
    } else {
      MoveToFrontMirrors(ll, cache, i);
      var m := MoveToFront(ll, i);
      assert m[0].key == key;
      assert m[1..] == ll[..i] + ll[i + 1..];
      ReplaceFrontMirrors(m, cache, value);
      assert Upserted(ll, key, value) == [Entry(key, value)] + m[1..];
    }
  }

  /** One eviction step seen from the evicted suffix: its charge and its callback order. */
  lemma SuffixStep<V>(o: seq<Entry<V>>, k: nat, valueLen: V -> nat)
    requires k < |o|
    ensures TotalSize(o[k..], valueLen) == EntrySize(o[k], valueLen) + TotalSize(o[k + 1..], valueLen)
    ensures Reversed(o[k..]) == Reversed(o[k + 1..]) + [o[k]]
  {
    assert o[k..][1..] == o[k + 1..];
  }

  /** Evicting entry k of the original list extends the evicted suffix by one in the byte count and the callback log. */
  lemma EvictAccounting<V>(o: seq<Entry<V>>, k: nat, n0: int, nb: int, e0: seq<Entry<V>>, ev: seq<Entry<V>>,
                           logged: bool, valueLen: V -> nat)
    requires k < |o|
    requires nb == n0 - TotalSize(o[k + 1..], valueLen)
    requires ev == e0 + (if logged then Reversed(o[k + 1..]) else [])
    ensures nb - EntrySize(o[k], valueLen) == n0 - TotalSize(o[k..], valueLen)
    ensures ev + (if logged then [o[k]] else []) == e0 + (if logged then Reversed(o[k..]) else [])
  {
    SuffixStep(o, k, valueLen);
  }

  lemma {:induction false} TotalSizeAppend<V>(a: seq<Entry<V>>, b: seq<Entry<V>>, valueLen: V -> nat)
    ensures TotalSize(a + b, valueLen) == TotalSize(a, valueLen) + TotalSize(b, valueLen)
    decreases |a|
  {
    if a != [] {
      TotalSizeAppend(a[1..], b, valueLen);
      assert (a + b)[1..] == a[1..] + b;
    } else {
      assert a + b == b;
    }
  }

  /**
   * Against the total charge, the intended delta is exact: pushing a new key adds its
   * entry size; replacing a value adds the new length and takes off the old one.
   */
  lemma UpsertedSize<V>(ll: seq<Entry<V>>, key: string, value: V, valueLen: V -> nat)
    ensures TotalSize(Upserted(ll, key, value), valueLen)
         == TotalSize(ll, valueLen) + AddDeltaIntended(ll, key, value, valueLen)
  {
    var i := Position(ll, key);
    var e := Entry(key, value);
    if i < 0 {
      TotalSizeAppend([e], ll, valueLen);
    } else {
      assert ll == ll[..i] + ([ll[i]] + ll[i + 1..]);
      TotalSizeAppend(ll[..i], [ll[i]] + ll[i + 1..], valueLen);
      TotalSizeAppend([e] + ll[..i], ll[i + 1..], valueLen);
      TotalSizeAppend([e], ll[..i], valueLen);
      assert TotalSize([ll[i]] + ll[i + 1..], valueLen)
          == EntrySize(ll[i], valueLen) + TotalSize(ll[i + 1..], valueLen);
    }
  }

  class Cache<V> {
    const maxBytes: int
    var nBytes: int
    var ll: seq<Entry<V>>
    var cache: map<string, V>
    const valueLen: V -> nat
    const hasOnEvicted: bool
    var evicted: seq<Entry<V>>

    ghost predicate Valid()
      reads this
    {
      Mirrors(ll, cache)
    }

    /** `nBytes` equals the total charge of the entries (lru.go:60 can break this). */
    ghost predicate Sized()
      reads this
    {
      nBytes == TotalSize(ll, valueLen)
    }

    /** lru.New: an empty cache with the given budget and callback. */
    constructor (max: int, valueLen: V -> nat, hasOnEvicted: bool)
      ensures Valid() && Sized()
      ensures maxBytes == max && nBytes == 0 && ll == [] && cache == map[] && evicted == []
      ensures this.valueLen == valueLen && this.hasOnEvicted == hasOnEvicted
    {
      maxBytes := max;
      nBytes := 0;
      ll := [];
      cache := map[];
      this.valueLen := valueLen;
      this.hasOnEvicted := hasOnEvicted;
      evicted := [];
    }

    /** list.MoveToFront on the element of a cached key (lru.go:33). */
    method MoveHitToFront(key: string)
      requires Valid() && key in cache
      modifies this`ll
      ensures Valid()
      ensures Position(old(ll), key) >= 0 && ll == MoveToFront(old(ll), Position(old(ll), key))
      ensures ll[0] == Entry(key, cache[key]) && multiset(ll) == multiset(old(ll))
    {
      var list := ll;
      HitMovesToFront(list, cache, key);
      ll := MoveToFront(list, Position(list, key));
    }

    /** Cache.Get: a hit returns the value and moves its entry to the front; a miss changes nothing. */
    method Get(key: string) returns (r: Option<V>)
      requires Valid()
      modifies this`ll
      ensures Valid()
      ensures key in cache <==> Position(old(ll), key) >= 0
      ensures r.Some? <==> key in cache
      ensures r.Some? ==>
                && r.value == cache[key]
                && ll == MoveToFront(old(ll), Position(old(ll), key))
                && ll[0] == Entry(key, r.value)
      ensures r.None? ==> ll == old(ll)
      ensures multiset(ll) == multiset(old(ll))
    {
      MirrorsLookup(ll, cache, key);
      if key in cache {
        MoveHitToFront(key);
        r := Some(cache[key]);
      } else {
        r := None;
      }
    }

    /** Cache.RemoveOldest: drop the back entry from the list and the map, uncharge it, call back. */
    method RemoveOldest()
      requires Valid()
      modifies this`ll, this`cache, this`nBytes, this`evicted
      ensures Valid()
      ensures old(ll) == [] ==> ll == [] && cache == old(cache) && nBytes == old(nBytes) && evicted == old(evicted)
      ensures old(ll) != [] ==>
        var back := old(ll)[|old(ll)| - 1];
        && ll == old(ll)[..|old(ll)| - 1]
        && cache == old(cache) - {back.key}
        && nBytes == old(nBytes) - EntrySize(back, valueLen)
        && evicted == old(evicted) + (if hasOnEvicted then [back] else [])
      ensures old(Sized()) ==> Sized()
    {
      if ll != [] {
        var back := ll[|ll| - 1];
        DropBackMirrors(ll, cache);
        TotalSizeAppend(ll[..|ll| - 1], [back], valueLen);
        assert ll == ll[..|ll| - 1] + [back];
        ll := ll[..|ll| - 1];
        cache := cache - {back.key};
        nBytes := nBytes - (|Encode(back.key)| + valueLen(back.value));
        if hasOnEvicted {
          evicted := evicted + [back];
        }
      }
    }

    /**
     * The eviction loop of lru.go:67-69. Go loops while `maxBytes != 0 && nBytes > maxBytes`;
     * once the list is empty `RemoveOldest` changes nothing, so if the guard still holds there
     * the Go loop never exits. This loop stops at that point instead and reports it in `spins`.
     */
    method EvictWhileOver() returns (spins: bool)
      requires Valid()
      modifies this`ll, this`cache, this`nBytes, this`evicted
      ensures Valid()
      ensures |ll| <= |old(ll)| && ll == old(ll)[..|ll|]
      ensures nBytes == old(nBytes) - TotalSize(old(ll)[|ll|..], valueLen)
      ensures evicted == old(evicted) + (if hasOnEvicted then Reversed(old(ll)[|ll|..]) else [])
      ensures spins <==> maxBytes != 0 && nBytes > maxBytes
      ensures spins ==> ll == []
      ensures |ll| < |old(ll)| ==> maxBytes != 0 && nBytes + EntrySize(old(ll)[|ll|], valueLen) > maxBytes
      ensures maxBytes == 0 ==> ll == old(ll) && cache == old(cache) && nBytes == old(nBytes)
      ensures old(Sized()) ==> Sized()
      ensures old(Sized()) && maxBytes >= 0 ==> !spins
    {
      ghost var o, c0, n0, e0, sized0 := ll, cache, nBytes, evicted, Sized();
      assert o[|o|..] == [];
      while maxBytes != 0 && nBytes > maxBytes && ll != []
        invariant Valid()
        invariant |ll| <= |o| && ll == o[..|ll|]
        invariant nBytes == n0 - TotalSize(o[|ll|..], valueLen)
        invariant evicted == e0 + (if hasOnEvicted then Reversed(o[|ll|..]) else [])
        invariant |ll| < |o| ==> maxBytes != 0 && nBytes + EntrySize(o[|ll|], valueLen) > maxBytes
        invariant |ll| == |o| ==> cache == c0
        invariant sized0 ==> Sized()
        decreases |ll|
      {
        EvictOne(o, n0, e0, sized0);
      }
      spins := maxBytes != 0 && nBytes > maxBytes;
    }

    /** One iteration of EvictWhileOver: the oldest entry leaves the list and its charge leaves `nBytes`. */
    method EvictOne(ghost o: seq<Entry<V>>, ghost n0: int, ghost e0: seq<Entry<V>>, ghost sized0: bool)
      requires Valid() && 0 < |ll| <= |o| && ll == o[..|ll|]
      requires nBytes == n0 - TotalSize(o[|ll|..], valueLen)
      requires evicted == e0 + (if hasOnEvicted then Reversed(o[|ll|..]) else [])
      requires sized0 ==> Sized()
      modifies this`ll, this`cache, this`nBytes, this`evicted
      ensures Valid() && |ll| == |old(ll)| - 1 && ll == o[..|ll|]
      ensures nBytes == n0 - TotalSize(o[|ll|..], valueLen)
      ensures evicted == e0 + (if hasOnEvicted then Reversed(o[|ll|..]) else [])
      ensures nBytes + EntrySize(o[|ll|], valueLen) == old(nBytes)
      ensures sized0 ==> Sized()
    {
      ghost var k := |ll| - 1;
      EvictAccounting(o, k, n0, nBytes, e0, evicted, hasOnEvicted, valueLen);
      assert ll[k] == o[k];
      RemoveOldest();
      assert ll == o[..k];
    }

    /** The first phase of `Add` (lru.go:57-64): update the list and the map, report the replaced value. */
    method Upsert(key: string, value: V) returns (replaced: Option<V>)
      requires Valid()
      modifies this`ll, this`cache
      ensures Valid()
      ensures ll == Upserted(old(ll), key, value) && cache == old(cache)[key := value]
      ensures replaced.Some? <==> Position(old(ll), key) >= 0
      ensures replaced.Some? ==> replaced.value == old(ll)[Position(old(ll), key)].value
    {
      MirrorsLookup(ll, cache, key);
      UpsertedMirrors(ll, cache, key, value);
      if key in cache {
        replaced := Some(cache[key]);
      } else {
        replaced := None;
      }
      ll, cache := Upserted(ll, key, value), cache[key := value];
    }

    /**
     * Cache.Add as written: on an existing key `nBytes` grows by old length minus
     * new length (lru.go:60), the opposite sign of the real change.
     */
    method Add(key: string, value: V) returns (spins: bool)
      requires Valid()
      modifies this`ll, this`cache, this`nBytes, this`evicted
      ensures Valid()
      ensures
        var up := Upserted(old(ll), key, value);
        && |ll| <= |up| && ll == up[..|ll|]
        && nBytes == old(nBytes) + AddDeltaAsWritten(old(ll), key, value, valueLen) - TotalSize(up[|ll|..], valueLen)
        && evicted == old(evicted) + (if hasOnEvicted then Reversed(up[|ll|..]) else [])
        && (|ll| < |up| ==> maxBytes != 0 && nBytes + EntrySize(up[|ll|], valueLen) > maxBytes)
      ensures spins <==> maxBytes != 0 && nBytes > maxBytes
      ensures spins ==> ll == []
      ensures maxBytes == 0 ==> ll == Upserted(old(ll), key, value) && cache == old(cache)[key := value]
    {
      var replaced := Upsert(key, value);
      if replaced.Some? {
        nBytes := nBytes + (valueLen(replaced.value) - valueLen(value));
      } else {
        nBytes := nBytes + |Encode(key)| + valueLen(value);
      }
      spins := EvictWhileOver();
    }

    /**
     * Cache.Add with the size adjustment the code evidently intends (new length
     * minus old): `nBytes` stays the total charge, and the eviction loop always
     * ends, within the budget when the budget is not negative.
     */
    method AddIntended(key: string, value: V) returns (spins: bool)
      requires Valid() && Sized()
      modifies this`ll, this`cache, this`nBytes, this`evicted
      ensures Valid() && Sized()
      ensures
        var up := Upserted(old(ll), key, value);
        && |ll| <= |up| && ll == up[..|ll|]
        && evicted == old(evicted) + (if hasOnEvicted then Reversed(up[|ll|..]) else [])
        && (|ll| < |up| ==> maxBytes != 0 && nBytes + EntrySize(up[|ll|], valueLen) > maxBytes)
      ensures spins <==> maxBytes < 0
      ensures maxBytes >= 0 ==> maxBytes == 0 || nBytes <= maxBytes
      ensures maxBytes == 0 ==> ll == Upserted(old(ll), key, value) && cache == old(cache)[key := value]
    {
      UpsertedSize(ll, key, value, valueLen);
      var replaced := Upsert(key, value);
      if replaced.Some? {
        nBytes := nBytes + (valueLen(value) - valueLen(replaced.value));
      } else {
        nBytes := nBytes + |Encode(key)| + valueLen(value);
      }
      spins := EvictWhileOver();
    }

    /** Cache.Len: the number of entries, which is also the number of keys in the map. */
    method Len() returns (n: int)
      requires Valid()
      ensures n == |ll| && n == |cache|
    {
      n := |ll|;
    }
  }

  /**
   * The as-written `Add` on a budget of 10 bytes: "a" with a 9-byte value is
   * charged 10; replacing it with a 1-byte value charges 9 - 1 = 8 more (18),
   * evicting "a" uncharges 2 (16), and with the list empty the Go loop
   * `for c.maxBytes != 0 && c.nBytes > c.maxBytes` never exits.
   */
  method ReplaceWithSmallerValueSpins() returns (spins: bool)
    ensures spins
  {
    var c := new Cache<nat>(10, (n: nat) => n, false);
    assert c.valueLen(9) == 9 && c.valueLen(1) == 1;
    var e9, e1 := Entry("a", 9), Entry("a", 1);
    assert EntrySize<nat>(e9, c.valueLen) == 10 && EntrySize<nat>(e1, c.valueLen) == 2;
    assert Upserted<nat>([], "a", 9) == [e9];
    assert TotalSize([e9], c.valueLen) == 10;
    var first := c.Add("a", 9);
    assert c.ll == [e9] && c.nBytes == 10;
    assert Position([e9], "a") == 0;
    assert Upserted([e9], "a", 1) == [e1];
    assert TotalSize([e1], c.valueLen) == 2;
    spins := c.Add("a", 1);
    assert c.ll == [];
  }
}
