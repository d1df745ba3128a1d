/**
 * The liveness registry of geerpc/registry/registry.go. Servers announce
 * themselves by POST; a GET lists the ones whose last announcement is
 * younger than the registry's timeout, forgetting the others. Time is an
 * integer count of nanoseconds passed in as `now`.
 */
module RpcRegistry {
  import opened Wrappers
  import opened GoStrings

  const Second: int := 1_000_000_000
  const DefaultTimeout: int := 5 * Second
  const DefaultPath: string := "/_geerpc/registry"
  const ServersHeader: string := "X-Geerpc-Servers"

  /** ServerItem: an address and the time of its last announcement. */
  datatype ServerItem = ServerItem(addr: string, start: int)

  /** A server is alive when there is no timeout, or when start + timeout is strictly after now. */
  predicate Alive(item: ServerItem, timeout: int, now: int) {
    timeout == 0 || item.start + timeout > now
  }

  /** The entries of `servers` that are alive at `now`. */
  ghost function Survivors(servers: map<string, ServerItem>, timeout: int, now: int): map<string, ServerItem> {
    map k | k in servers && Alive(servers[k], timeout, now) :: servers[k]
  }

  /** Without a timeout nobody expires. */
  lemma NoTimeoutKeepsAll(servers: map<string, ServerItem>, now: int)
    ensures Survivors(servers, 0, now) == servers
  {
    assert forall k :: k in servers ==> Alive(servers[k], 0, now);
  }

  /** A second sweep at the same time removes nothing more. */
  lemma SurvivorsIdempotent(servers: map<string, ServerItem>, timeout: int, now: int)
    ensures Survivors(Survivors(servers, timeout, now), timeout, now) == Survivors(servers, timeout, now)
  {
    var once := Survivors(servers, timeout, now);
    assert forall k :: k in once ==> Alive(once[k], timeout, now);
  }

  /** Which branch of GeeRegistry.ServeHTTP a request takes (registry.go:61-74). */
  datatype Action = ListAlive | Announce(addr: string) | Reject(status: int)

  /**
   * GET lists the alive servers; POST announces the address in the
   * X-Geerpc-Servers header, and fails with 500 when it is empty; any other
   * method is refused with 405.
   */
  function Dispatch(verb: string, serversHeader: string): (a: Action)
    ensures a.ListAlive? <==> verb == "GET"
    ensures a.Announce? <==> verb == "POST" && serversHeader != ""
    ensures a.Announce? ==> a.addr == serversHeader
    ensures a == Reject(500) <==> verb == "POST" && serversHeader == ""
    ensures a == Reject(405) <==> verb != "GET" && verb != "POST"
    ensures a.Reject? ==> a.status == 500 || a.status == 405
  {
    if verb == "GET" then ListAlive
    else if verb == "POST" then
      if serversHeader == "" then Reject(500) else Announce(serversHeader)
    else Reject(405)
  }

  /** Heartbeat's interval: a zero interval becomes the default timeout less one second (registry.go:87-89). */
  function HeartbeatInterval(dur: int): (d: int)
    ensures dur == 0 ==> d == 4 * Second
    ensures dur != 0 ==> d == dur
  {
    if dur == 0 then DefaultTimeout - Second else dur
  }

  /**
   * A server that beats at the default interval is still alive, in a registry
   * with the default timeout, when its next beat is due.
   */
  lemma DefaultHeartbeatArrivesInTime(addr: string, start: int)
    ensures Alive(ServerItem(addr, start), DefaultTimeout, start + HeartbeatInterval(0))
    ensures !Alive(ServerItem(addr, start), DefaultTimeout, start + DefaultTimeout)
  {
  }

  class Registry {
    var servers: map<string, ServerItem>
    const timeout: int

    /** Every item is filed under its own address. */
    ghost predicate Valid()
      reads this
    {
      forall k :: k in servers ==> servers[k].addr == k
    }

    /** NewRegistry: no servers yet (registry.go:27-32). */
    constructor (timeout: int)
      ensures Valid()
      ensures servers == map[] && this.timeout == timeout
    {
      servers := map[];
      this.timeout := timeout;
    }

    /**
     * putServer: a new address is recorded as starting now; a known one only
     * has its start refreshed. No other entry changes (registry.go:36-44).
     */
    method PutServer(addr: string, now: int)
      requires Valid()
      modifies this`servers
      ensures Valid()
      ensures servers == old(servers)[addr := ServerItem(addr, now)]
      ensures addr in old(servers) ==> servers[addr] == old(servers)[addr].(start := now)
    {
      if addr in servers {
        servers := servers[addr := servers[addr].(start := now)];
      } else {
        servers := servers[addr := ServerItem(addr, now)];
      }
    }

    /**
     * aliveServers: deletes every entry that has expired at `now` and lists
     * the others, in map order, after as many empty strings as there were
     * entries (the slice is made with that length and then appended to,
     * registry.go:46-58).
     */
    method AliveServers(now: int) returns (list: seq<string>)
      requires Valid()
      modifies this`servers
      ensures Valid()
      ensures servers == Survivors(old(servers), timeout, now)
      ensures timeout == 0 ==> servers == old(servers)
      ensures |list| == |old(servers)| + |servers|
      ensures forall i :: 0 <= i < |old(servers)| ==> list[i] == ""
      ensures multiset(list[|old(servers)|..]) == multiset(servers.Keys)
    {
      ghost var s0 := servers;
      var n := |servers|;
      list := seq(n, _ => "");
      var todo := servers.Keys;
      ghost var kept: set<string> := {};
      while todo != {}
        invariant todo <= s0.Keys
        invariant forall k :: k in servers <==> k in s0 && (k in todo || Alive(s0[k], timeout, now))
        invariant forall k :: k in servers ==> servers[k] == s0[k]
        invariant forall k :: k in kept <==> k in s0 && k !in todo && Alive(s0[k], timeout, now)
        invariant |list| == n + |kept|
        invariant forall i :: 0 <= i < n ==> list[i] == ""
        invariant multiset(list[n..]) == multiset(kept)
        decreases todo
      {
        var k :| k in todo;
        var v := servers[k];
        if timeout == 0 || v.start + timeout > now {
          AppendKept(list, n, kept, k);
          list := list + [v.addr];
          kept := kept + {k};
        } else {
          servers := servers - {k};
        }
        todo := todo - {k};
      }
      assert servers.Keys == kept;
      if timeout == 0 {
        NoTimeoutKeepsAll(s0, now);
      }
    }

    /**
     * GeeRegistry.ServeHTTP: a GET answers with the alive servers joined by
     * commas in the X-Geerpc-Servers header; a POST with an address announces
     * it; an empty POST gets 500 and any other method 405, changing nothing.
     * `listed` is what aliveServers returned.
     */
    method ServeHTTP(verb: string, serversHeader: string, now: int)
      returns (status: int, replyHeader: Option<string>, ghost listed: seq<string>)
      requires Valid()
      modifies this`servers
      ensures Valid()
      ensures Dispatch(verb, serversHeader).ListAlive? ==>
                && status == 200 && replyHeader == Some(Join(listed, ','))
                && servers == Survivors(old(servers), timeout, now)
                && |listed| == |old(servers)| + |servers|
                && (forall i :: 0 <= i < |old(servers)| ==> listed[i] == "")
                && multiset(listed[|old(servers)|..]) == multiset(servers.Keys)
      ensures Dispatch(verb, serversHeader).Announce? ==>
                status == 200 && replyHeader == None
                && servers == old(servers)[serversHeader := ServerItem(serversHeader, now)]
      ensures Dispatch(verb, serversHeader).Reject? ==>
                status == Dispatch(verb, serversHeader).status && replyHeader == None
                && servers == old(servers)
    {
      listed := [];
      match Dispatch(verb, serversHeader) {
        case ListAlive =>
          var alive := AliveServers(now);
          listed := alive;
          status, replyHeader := 200, Some(Join(alive, ','));
        case Announce(addr) =>
          PutServer(addr, now);
          status, replyHeader := 200, None;
        case Reject(code) =>
          status, replyHeader := code, None;
      }
    }
  }

  /** Appending a newly kept address keeps the listed part equal, as a multiset, to the kept set. */
  lemma AppendKept(list: seq<string>, n: nat, kept: set<string>, k: string)
    requires n <= |list|
    requires multiset(list[n..]) == multiset(kept)
    requires k !in kept
    ensures multiset((list + [k])[n..]) == multiset(kept + {k})
  {
    assert (list + [k])[n..] == list[n..] + [k];
  }
}
