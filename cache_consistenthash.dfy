/**
 * The consistent-hash ring of geecache/consistenthash/consistenthash.go.
 *
 * Every node name is placed on the ring `replicas` times, at the hashes of
 * "0"+name, "1"+name, ...; `keys` holds the points in ascending order and
 * `hashmap` sends each point to the node that placed it last. A key belongs
 * to the node of the first point at or after the key's hash, wrapping round
 * to the smallest point.
 */
module ConsistentHash {
  import opened Utf8
  import opened GoStrings
  import opened Wrappers

  /** HashFunc: a hash of a byte string to 32 bits. */
  type HashFunc = seq<byte> -> bv32

  /**
   * `n` bit steps of the reflected IEEE CRC-32 (polynomial 0xEDB88320, ISO 3309 / ITU-T V.42):
   * shift right, and add the polynomial when the bit shifted out was set.
   */
  function CrcShift(crc: bv32, n: nat): bv32
    decreases n
  {
    if n == 0 then crc
    else CrcShift((crc >> 1) ^ (0xEDB8_8320 & (0 - (crc & 1))), n - 1)
  }

  function CrcUpdate(crc: bv32, data: seq<byte>): bv32
    decreases |data|
  {
    if data == [] then crc
    else CrcUpdate(CrcShift(crc ^ (data[0] as int as bv32), 8), data[1..])
  }

  /** crc32.ChecksumIEEE: register preset to all ones, final complement. */
  function ChecksumIeee(data: seq<byte>): bv32 {
    !CrcUpdate(0xFFFF_FFFF, data)
  }

  /** `int(m.hash([]byte(s)))`: the hash of a string's UTF-8 bytes, as a non-negative integer. */
  function HashOf(h: HashFunc, s: string): (r: nat)
    ensures r < 0x1_0000_0000
  {
    h(Encode(s)) as int
  }

  /** The point of replica `i` of node `name` (consistenthash.go:33). */
  function PointOf(h: HashFunc, i: nat, name: string): nat {
    HashOf(h, Itoa(i) + name)
  }

  /** The loop bound of consistenthash.go:32: a negative `replicas` places nothing. */
  function Replicas(replicas: int): nat {
    if replicas < 0 then 0 else replicas
  }

  /** The first `n` points of `name`, in the order the inner loop appends them. */
  function NamePoints(h: HashFunc, name: string, n: nat): seq<int>
    decreases n
  {
    if n == 0 then [] else NamePoints(h, name, n - 1) + [PointOf(h, n - 1, name)]
  }

  /** `keys` after the inner loop has appended the first `n` points of `name`. */
  function AppendName(h: HashFunc, ks: seq<int>, name: string, n: nat): seq<int>
    decreases n
  {
    if n == 0 then ks else AppendName(h, ks, name, n - 1) + [PointOf(h, n - 1, name)]
  }

  /** `hashmap` after the inner loop has placed the first `n` points of `name`. */
  function AssignName(h: HashFunc, hm: map<int, string>, name: string, n: nat): map<int, string>
    decreases n
  {
    if n == 0 then hm else AssignName(h, hm, name, n - 1)[PointOf(h, n - 1, name) := name]
  }

  /** The points the outer loop appends for the first `n` names, in order. */
  function RingPoints(h: HashFunc, replicas: int, names: seq<string>, n: nat): seq<int>
    requires n <= |names|
    decreases n
  {
    if n == 0 then []
    else RingPoints(h, replicas, names, n - 1) + NamePoints(h, names[n - 1], Replicas(replicas))
  }

  /** `keys` after the outer loop has appended the points of the first `n` names. */
  function Appended(h: HashFunc, replicas: int, ks: seq<int>, names: seq<string>, n: nat): seq<int>
    requires n <= |names|
    decreases n
  {
    if n == 0 then ks
    else AppendName(h, Appended(h, replicas, ks, names, n - 1), names[n - 1], Replicas(replicas))
  }

  /** `hashmap` after the outer loop has placed the first `n` names. */
  function Assigned(h: HashFunc, replicas: int, hm: map<int, string>, names: seq<string>, n: nat): map<int, string>
    requires n <= |names|
    decreases n
  {
    if n == 0 then hm
    else AssignName(h, Assigned(h, replicas, hm, names, n - 1), names[n - 1], Replicas(replicas))
  }

  predicate Sorted(s: seq<int>) {
    forall i, j :: 0 <= i < j < |s| ==> s[i] <= s[j]
  }

  /** Insert `x` into a sorted sequence. */
  function Insert(x: int, s: seq<int>): (r: seq<int>)
    requires Sorted(s)
    ensures Sorted(r)
    ensures multiset(r) == multiset(s) + multiset{x}
    ensures |r| == |s| + 1 && (r[0] == x || (s != [] && r[0] == s[0]))
    decreases |s|
  {
    if s == [] || x <= s[0] then [x] + s
    else
      var t := Insert(x, s[1..]);
      assert s == [s[0]] + s[1..];
      assert forall k :: 0 <= k < |t| ==> t[0] <= t[k];
      assert s[0] <= t[0];
      [s[0]] + t
  }

  /** sort.Ints: the same points in ascending order. */
  function SortInts(s: seq<int>): (r: seq<int>)
    ensures Sorted(r)
    ensures multiset(r) == multiset(s)
    decreases |s|
  {
    if s == [] then []
    else
      assert s == [s[0]] + s[1..];
      Insert(s[0], SortInts(s[1..]))
  }

  /**
   * sort.Search over `keys[lo..hi]` for the predicate `keys[i] >= x`: the
   * first index whose point is at or after `x`, or `hi` when there is none.
   */
  function Search(keys: seq<int>, x: int, lo: nat, hi: nat): (i: nat)
    requires Sorted(keys) && lo <= hi <= |keys|
    requires forall j :: 0 <= j < lo ==> keys[j] < x
    requires forall j :: hi <= j < |keys| ==> keys[j] >= x
    ensures lo <= i <= hi
    ensures forall j :: 0 <= j < i ==> keys[j] < x
    ensures forall j :: i <= j < |keys| ==> keys[j] >= x
    decreases hi - lo
  {
    if lo < hi then
      var mid := (lo + hi) / 2;
      if keys[mid] < x then Search(keys, x, mid + 1, hi) else Search(keys, x, lo, mid)
    else lo
  }

  /**
   * `i` is the position the ring assigns to hash `x`: the first point at or
   * after `x`, or the smallest point when every point is before `x`.
   */
  ghost predicate IsSuccessor(keys: seq<int>, x: int, i: int) {
    && 0 <= i < |keys|
    && ((keys[i] >= x && forall j :: 0 <= j < i ==> keys[j] < x)
        || (i == 0 && forall j :: 0 <= j < |keys| ==> keys[j] < x))
  }

  class Map {
    const hash: HashFunc
    const replicas: int
    var keys: seq<int>
    var hashmap: map<int, string>
    /** Every name ever passed to `Add`. */
    ghost var nodes: set<string>

    /** The points are sorted, they are exactly the keys of `hashmap`, and every owner was added. */
    ghost predicate Valid()
      reads this
    {
      && Sorted(keys)
      && (forall p :: p in hashmap <==> p in keys)
      && (forall p :: p in hashmap ==> hashmap[p] in nodes)
    }

    /** NewMap: an empty ring; a missing hash function means crc32.ChecksumIEEE (consistenthash.go:24-26). */
    constructor (replicas: int, fn: Option<HashFunc>)
      ensures Valid()
      ensures fn.None? ==> hash == ChecksumIeee
      ensures fn.Some? ==> hash == fn.value
      ensures this.replicas == replicas && keys == [] && hashmap == map[] && nodes == {}
    {
      this.replicas := replicas;
      var f: HashFunc := if fn.None? then ChecksumIeee else fn.value;
      hash := f;
      keys := [];
      hashmap := map[];
      nodes := {};
    }

    /**
     * Map.Add: append `replicas` points per name, record each point's owner,
     * then sort the points (consistenthash.go:30-39).
     */
    method Add(names: seq<string>)
      requires Valid()
      modifies this`keys, this`hashmap, this`nodes
      ensures Valid()
      ensures Sorted(keys)
      ensures multiset(keys) == multiset(old(keys)) + multiset(RingPoints(hash, replicas, names, |names|))
      ensures hashmap == Assigned(hash, replicas, old(hashmap), names, |names|)
      ensures nodes == old(nodes) + set k | 0 <= k < |names| :: names[k]
    {
      ghost var k0, h0, n0 := keys, hashmap, nodes;
      AddPoints(names);
      AppendedIsConcat(hash, replicas, k0, names, |names|);
      nodes := n0 + set k | 0 <= k < |names| :: names[k];
      ghost var appended := keys;
      keys := SortInts(keys);
      AddKeepsValid(hash, replicas, k0, h0, names, n0, appended, keys, hashmap, nodes);
    }

    /** The nested loops of consistenthash.go:31-37, before the sort. */
    method AddPoints(names: seq<string>)
      modifies this`keys, this`hashmap
      ensures keys == Appended(hash, replicas, old(keys), names, |names|)
      ensures hashmap == Assigned(hash, replicas, old(hashmap), names, |names|)
    {
      var n := 0;
      while n < |names|
        invariant 0 <= n <= |names|
        invariant keys == Appended(hash, replicas, old(keys), names, n)
        invariant hashmap == Assigned(hash, replicas, old(hashmap), names, n)
      {
        AddReplicas(names[n]);
        n := n + 1;
      }
    }

    /** The inner loop of consistenthash.go:32-36: append the points of one name and record it as their owner. */
    method AddReplicas(name: string)
      modifies this`keys, this`hashmap
      ensures keys == AppendName(hash, old(keys), name, Replicas(replicas))
      ensures hashmap == AssignName(hash, old(hashmap), name, Replicas(replicas))
    {
      var i := 0;
      while i < replicas
        invariant 0 <= i <= Replicas(replicas)
        invariant keys == AppendName(hash, old(keys), name, i)
        invariant hashmap == AssignName(hash, old(hashmap), name, i)
      {
        var idx := PointOf(hash, i, name);
        keys := keys + [idx];
        hashmap := hashmap[idx := name];
        i := i + 1;
      }
      assert i == Replicas(replicas);
    }

    /**
     * Map.Get: the empty key has no owner; otherwise the owner of the first
     * point at or after the key's hash, wrapping to the smallest point. A
     * non-empty key on an empty ring is `idx % 0` in Go, a crash, and is
     * excluded (consistenthash.go:41-50).
     */
    function Get(key: string): (r: string)
      reads this
      requires Valid()
      requires key == "" || keys != []
      ensures key == "" ==> r == ""
      ensures key != "" ==> r in nodes
      ensures key != "" ==> exists i :: IsSuccessor(keys, HashOf(hash, key), i) && r == hashmap[keys[i]]
    {
      if |key| == 0 then ""
      else
        var x := HashOf(hash, key);
        var idx := Search(keys, x, 0, |keys|);
        var i := idx % |keys|;
        WrapIndex(idx, |keys|);
        assert IsSuccessor(keys, x, i);
        assert keys[i] in hashmap;
        hashmap[keys[i]]
    }
  }

  lemma {:induction false} AppendNameIsConcat(h: HashFunc, ks: seq<int>, name: string, n: nat)
    ensures AppendName(h, ks, name, n) == ks + NamePoints(h, name, n)
    decreases n
  {
    if n > 0 {
      AppendNameIsConcat(h, ks, name, n - 1);
      assert ks + NamePoints(h, name, n) == (ks + NamePoints(h, name, n - 1)) + [PointOf(h, n - 1, name)];
    }
  }

  /** The nested loops append exactly the ring points of the names to the old points. */
  lemma {:induction false} AppendedIsConcat(h: HashFunc, replicas: int, ks: seq<int>, names: seq<string>, n: nat)
    requires n <= |names|
    ensures Appended(h, replicas, ks, names, n) == ks + RingPoints(h, replicas, names, n)
    decreases n
  {
    if n > 0 {
      var prev := Appended(h, replicas, ks, names, n - 1);
      var pts := NamePoints(h, names[n - 1], Replicas(replicas));
      AppendedIsConcat(h, replicas, ks, names, n - 1);
      AppendNameIsConcat(h, prev, names[n - 1], Replicas(replicas));
      assert ks + RingPoints(h, replicas, names, n) == (ks + RingPoints(h, replicas, names, n - 1)) + pts;
    }
  }

  /** What Add leaves behind is a valid ring: the proof obligation of `Map.Add` for `Valid()`. */
  lemma AddKeepsValid(h: HashFunc, replicas: int, k0: seq<int>, h0: map<int, string>, names: seq<string>,
                      n0: set<string>, appended: seq<int>, keys: seq<int>, hm: map<int, string>, nodes: set<string>)
    requires forall p :: p in h0 <==> p in k0
    requires forall p :: p in h0 ==> h0[p] in n0
    requires appended == k0 + RingPoints(h, replicas, names, |names|)
    requires multiset(keys) == multiset(appended)
    requires hm == Assigned(h, replicas, h0, names, |names|)
    requires nodes == n0 + set k | 0 <= k < |names| :: names[k]
    ensures forall p :: p in hm <==> p in keys
    ensures forall p :: p in hm ==> hm[p] in nodes
  {
    AssignedOwners(h, replicas, h0, names, |names|);
    forall p ensures p in hm <==> p in keys {
      assert p in keys <==> p in multiset(keys);
      assert p in appended <==> p in multiset(appended);
      assert p in appended <==> p in k0 || p in RingPoints(h, replicas, names, |names|);
    }
    forall p | p in hm ensures hm[p] in nodes {
      if p in RingPoints(h, replicas, names, |names|) {
        var q := hm[p];
        assert q in names;
        var j :| 0 <= j < |names| && names[j] == q;
      }
    }
  }

  /** The ring assigns one position to each hash, so `Get` is determined by the ring. */
  lemma SuccessorUnique(keys: seq<int>, x: int, i: int, j: int)
    requires Sorted(keys) && IsSuccessor(keys, x, i) && IsSuccessor(keys, x, j)
    ensures i == j
  {
  }

  /** The wrap-around of consistenthash.go:49: `Search` gives at most `n`, and `n % n` is 0. */
  lemma WrapIndex(idx: nat, n: nat)
    requires idx <= n && n > 0
    ensures idx % n == (if idx < n then idx else 0)
  {
    if idx == n {
      assert n % n == 0;
    }
  }

  /** Every non-empty ring has a successor for every hash. */
  lemma SuccessorExists(keys: seq<int>, x: int)
    requires Sorted(keys) && keys != []
    ensures exists i :: IsSuccessor(keys, x, i)
  {
    var idx := Search(keys, x, 0, |keys|);
    if idx < |keys| {
      assert IsSuccessor(keys, x, idx);
    } else {
      assert IsSuccessor(keys, x, 0);
    }
  }

  lemma {:induction false} NamePointsLength(h: HashFunc, name: string, n: nat)
    ensures |NamePoints(h, name, n)| == n
    decreases n
  {
    if n > 0 {
      NamePointsLength(h, name, n - 1);
    }
  }

  /** Replica `i` of a node is the hash of `Itoa(i) + name` (consistenthash.go:32-34). */
  lemma {:induction false} NamePointsAt(h: HashFunc, name: string, n: nat, i: nat)
    requires i < n
    ensures |NamePoints(h, name, n)| == n
    ensures NamePoints(h, name, n)[i] == HashOf(h, Itoa(i) + name)
    decreases n
  {
    NamePointsLength(h, name, n);
    if i < n - 1 {
      NamePointsAt(h, name, n - 1, i);
    }
  }

  lemma MulSucc(k: nat, r: nat)
    ensures (k + 1) * r == k * r + r
  {
  }

  /** Add places exactly `replicas` points per name (consistenthash.go:31-32). */
  lemma {:induction false} RingPointsCount(h: HashFunc, replicas: nat, names: seq<string>, n: nat)
    requires n <= |names|
    ensures |RingPoints(h, replicas, names, n)| == n * replicas
    decreases n
  {
    if n > 0 {
      RingPointsCount(h, replicas, names, n - 1);
      NamePointsLength(h, names[n - 1], replicas);
      assert Replicas(replicas) == replicas;
      MulSucc(n - 1, replicas);
    }
  }

  /** Placing `name` makes it the owner of its points and leaves the other owners. */
  lemma {:induction false} AssignNameOwners(h: HashFunc, hm: map<int, string>, name: string, n: nat)
    ensures forall p :: p in AssignName(h, hm, name, n) <==> p in hm || p in NamePoints(h, name, n)
    ensures forall p :: p in NamePoints(h, name, n) ==> AssignName(h, hm, name, n)[p] == name
    ensures forall p :: p in hm && p !in NamePoints(h, name, n) ==> AssignName(h, hm, name, n)[p] == hm[p]
    decreases n
  {
    if n > 0 {
      AssignNameOwners(h, hm, name, n - 1);
    }
  }

  /**
   * After Add, every point of the added names belongs to one of them, and the
   * earlier points not hit again keep their owners (consistenthash.go:35).
   */
  lemma {:induction false} AssignedOwners(h: HashFunc, replicas: int, hm: map<int, string>, names: seq<string>, n: nat)
    requires n <= |names|
    ensures forall p :: p in Assigned(h, replicas, hm, names, n) <==> p in hm || p in RingPoints(h, replicas, names, n)
    ensures forall p :: p in RingPoints(h, replicas, names, n) ==> Assigned(h, replicas, hm, names, n)[p] in names
    ensures forall p :: p in hm && p !in RingPoints(h, replicas, names, n) ==> Assigned(h, replicas, hm, names, n)[p] == hm[p]
    decreases n
  {
    if n > 0 {
      AssignedOwners(h, replicas, hm, names, n - 1);
      AssignNameOwners(h, Assigned(h, replicas, hm, names, n - 1), names[n - 1], Replicas(replicas));
    }
  }

  /** The last node added owns every one of its points. */
  lemma LastNameOwnsItsPoints(h: HashFunc, replicas: int, hm: map<int, string>, names: seq<string>)
    requires names != []
    ensures forall p :: p in NamePoints(h, names[|names| - 1], Replicas(replicas)) ==>
                        var owners := Assigned(h, replicas, hm, names, |names|);
                        p in owners && owners[p] == names[|names| - 1]
  {
    var k := |names| - 1;
    AssignNameOwners(h, Assigned(h, replicas, hm, names, k), names[k], Replicas(replicas));
  }
}
