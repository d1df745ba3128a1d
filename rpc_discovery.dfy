/**
 * Server selection of geerpc/xclient/discovery.go: a fixed list of servers
 * and a rotation index. The random source is the verifier's choice: a
 * random pick is any valid position.
 */
module RpcDiscovery {
  import opened Wrappers

  const MaxInt32: int := 0x7FFF_FFFF

  /** SelectMode is an int in Go; these are its two supported values. */
  const RandomSelect: int := 0
  const RoundRobinSelect: int := 1

  /** The positions n consecutive round-robin picks visit, starting from rotation index `start`. */
  function RoundRobinPositions(start: nat, n: nat, count: nat): (ps: seq<nat>)
    requires n > 0
    ensures |ps| == count
    ensures forall j :: 0 <= j < count ==> ps[j] == (start + j) % n
  {
    seq(count, j requires 0 <= j => (start + j) % n)
  }

  lemma MulAtLeast(k: int, n: int)
    requires k >= 1 && n > 0
    ensures k * n >= n
  {
    assert k * n == (k - 1) * n + n;
  }

  /** Division by n is determined by any quotient-remainder pair with remainder in [0, n). */
  lemma DivModUnique(a: int, n: int, q: int, r: int)
    requires n > 0 && 0 <= r < n && a == q * n + r
    ensures a / n == q && a % n == r
  {
    var q0, r0 := a / n, a % n;
    assert a == q0 * n + r0;
    assert (q - q0) * n == r0 - r;
    if q - q0 >= 1 {
      MulAtLeast(q - q0, n);
    } else if q0 - q >= 1 {
      MulAtLeast(q0 - q, n);
    }
  }

  /** (a + i) % n and (a + j) % n differ for distinct i, j below n. */
  lemma ModDistinct(a: nat, i: nat, j: nat, n: nat)
    requires n > 0 && i < j < n
    ensures (a + i) % n != (a + j) % n
  {
    var q, r := (a + i) / n, (a + i) % n;
    assert a + i == q * n + r;
    if r + (j - i) < n {
      DivModUnique(a + j, n, q, r + (j - i));
    } else {
      assert a + j == (q + 1) * n + (r + (j - i) - n);
      DivModUnique(a + j, n, q + 1, r + (j - i) - n);
    }
  }

  /** The position p is reached after ((p - start) mod n) picks. */
  lemma ModReaches(start: nat, p: nat, n: nat)
    requires p < n
    ensures var j := (p - start % n + n) % n; j < n && (start + j) % n == p
  {
    var q, s := start / n, start % n;
    assert start == q * n + s;
    var j := (p - s + n) % n;
    if p >= s {
      DivModUnique(p - s + n, n, 1, p - s);
      DivModUnique(start + j, n, q, p);
    } else {
      DivModUnique(p - s + n, n, 0, p - s + n);
      assert start + j == (q + 1) * n + p;
      DivModUnique(start + j, n, q + 1, p);
    }
  }

  /** n consecutive round-robin picks visit every position exactly once, whatever the starting index. */
  lemma RoundRobinCoversOnce(start: nat, n: nat)
    requires n > 0
    ensures forall i, j :: 0 <= i < j < n ==> RoundRobinPositions(start, n, n)[i] != RoundRobinPositions(start, n, n)[j]
    ensures forall p :: 0 <= p < n ==> p in RoundRobinPositions(start, n, n)
  {
    var ps := RoundRobinPositions(start, n, n);
    forall i, j | 0 <= i < j < n
      ensures ps[i] != ps[j]
    {
      ModDistinct(start, i, j, n);
    }
    forall p | 0 <= p < n
      ensures p in ps
    {
      ModReaches(start, p, n);
      var j := (p - start % n + n) % n;
      assert ps[j] == p;
    }
  }

  /** What MultiDiscovery.Get promises about its answer and the rotation index, over the list as it is now. */
  twostate predicate Selected(d: MultiDiscovery, mode: int, new r: Result<string>)
    reads d
  {
    var n := |d.servers|;
    if n == 0 then r == Err("no available server") && d.index == old(d.index)
    else if mode == RandomSelect then r.Ok? && r.value in d.servers && d.index == old(d.index)
    else if mode == RoundRobinSelect then
      r == Ok(d.servers[old(d.index) % n]) && d.index == (old(d.index) + 1) % n
    else r == Err("not supported mode") && d.index == old(d.index)
  }

  class MultiDiscovery {
    var servers: seq<string>
    var index: int

    ghost predicate Valid()
      reads this
    {
      index >= 0
    }

    /** NewMultiDiscovery: the given servers and a random starting index in [0, MaxInt32 - 1) (discovery.go:67-74). */
    constructor (servers: seq<string>)
      ensures Valid()
      ensures this.servers == servers && 0 <= index < MaxInt32 - 1
    {
      this.servers := servers;
      var start :| 0 <= start < MaxInt32 - 1;
      index := start;
    }

    /** MultiDiscovery.Update: does nothing and succeeds; the list is not replaced (discovery.go:32-34). */
    method Update(list: seq<string>) returns (err: Option<string>)
      ensures err == None
    {
      err := None;
    }

    /** MultiDiscovery.Refresh: does nothing and succeeds (discovery.go:36-38). */
    method Refresh() returns (err: Option<string>)
      ensures err == None
    {
      err := None;
    }

    /**
     * MultiDiscovery.Get: no servers is an error; a random pick is any
     * listed server; a round-robin pick takes position index mod n and
     * advances the index; any other mode is an error (discovery.go:40-57).
     */
    method Get(mode: int) returns (r: Result<string>)
      requires Valid()
      modifies this`index
      ensures Valid()
      ensures servers == [] ==> r == Err("no available server") && index == old(index)
      ensures servers != [] && mode == RandomSelect ==> r.Ok? && r.value in servers && index == old(index)
      ensures servers != [] && mode == RoundRobinSelect ==>
                && r == Ok(servers[old(index) % |servers|])
                && index == (old(index) + 1) % |servers|
                && 0 <= index < |servers|
      ensures servers != [] && mode != RandomSelect && mode != RoundRobinSelect ==>
                r == Err("not supported mode") && index == old(index)
      ensures Selected(this, mode, r)
    {
      var n := |servers|;
      if n == 0 {
        return Err("no available server");
      }
      if mode == RandomSelect {
        var k :| 0 <= k < n;
        r := Ok(servers[k]);
      } else if mode == RoundRobinSelect {
        var srv := servers[index % n];
        index := (index + 1) % n;
        r := Ok(srv);
      } else {
        r := Err("not supported mode");
      }
    }

    /** MultiDiscovery.GetAll: a copy of the server list; nothing changes (discovery.go:59-65). */
    method GetAll() returns (r: Result<seq<string>>)
      ensures r == Ok(servers)
    {
      var copy := servers[..];
      r := Ok(copy);
    }
  }

  /** The rotation index after `picks` round-robin picks from `start` over n servers, as Get leaves it. */
  function IndexAfter(start: nat, n: nat, picks: nat): (i: nat)
    requires n > 0
    ensures picks > 0 ==> i < n
  {
    if picks == 0 then start else (IndexAfter(start, n, picks - 1) + 1) % n
  }

  /** Pick number j (counting from 0) takes position (start + j) mod n: the sequence RoundRobinPositions lists. */
  lemma {:induction false} IndexAfterPosition(start: nat, n: nat, picks: nat)
    requires n > 0
    ensures IndexAfter(start, n, picks) % n == (start + picks) % n
  {
    if picks > 0 {
      IndexAfterPosition(start, n, picks - 1);
      NextPosition(start + picks - 1, IndexAfter(start, n, picks - 1), n);
    }
  }

  lemma NextPosition(k: nat, i: nat, n: nat)
    requires n > 0 && i % n == k % n
    ensures (i + 1) % n % n == (k + 1) % n
  {
    var r := i % n;
    var qi, qk := i / n, k / n;
    assert i == qi * n + r;
    assert k == qk * n + r;
    DivModUnique((i + 1) % n, n, 0, (i + 1) % n);
    if r + 1 < n {
      DivModUnique(i + 1, n, qi, r + 1);
      DivModUnique(k + 1, n, qk, r + 1);
    } else {
      assert i + 1 == (qi + 1) * n + 0 && k + 1 == (qk + 1) * n + 0;
      DivModUnique(i + 1, n, qi + 1, 0);
      DivModUnique(k + 1, n, qk + 1, 0);
    }
  }
}
