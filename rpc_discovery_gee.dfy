/**
 * Discovery backed by the registry, geerpc/xclient/discovery_gee.go. The
 * server list is refetched from the registry at most once per timeout; what
 * the HTTP GET to the registry gives back is a `Fetch` parameter and the
 * current time is `now`, in nanoseconds.
 */
module RpcGeeDiscovery {
  import opened Wrappers
  import opened GoStrings
  import opened RpcDiscovery

  const DefaultUpdateTimeout: int := 1_000_000_000

  /** The outcome of the GET to the registry: a transport error, or the X-Geerpc-Servers header. */
  datatype Fetch = FetchFailed(err: string) | Fetched(serversLine: string)

  /**
   * The pieces Refresh keeps: those that are not all white space, in their
   * order and untrimmed.
   */
  function KeepNonBlank(pieces: seq<string>): (kept: seq<string>)
    ensures |kept| <= |pieces|
    ensures forall i :: 0 <= i < |kept| ==> !IsBlank(kept[i]) && kept[i] in pieces
    ensures forall i :: 0 <= i < |pieces| && !IsBlank(pieces[i]) ==> pieces[i] in kept
    decreases |pieces|
  {
    if pieces == [] then []
    else
      var init, last := pieces[..|pieces| - 1], pieces[|pieces| - 1];
      assert forall i :: 0 <= i < |init| ==> init[i] == pieces[i];
      KeepNonBlank(init) + (if IsBlank(last) then [] else [last])
  }

  /** One more piece at the end is kept after the others exactly when it is not blank. */
  lemma KeepNonBlankSnoc(init: seq<string>, last: string)
    ensures KeepNonBlank(init + [last]) == KeepNonBlank(init) + (if IsBlank(last) then [] else [last])
  {
    var s := init + [last];
    assert s[..|s| - 1] == init && s[|s| - 1] == last;
  }

  lemma Regroup(x: seq<string>, y: seq<string>, z: seq<string>)
    ensures x + y + z == x + (y + z)
  {
  }

  lemma {:induction false} KeepNonBlankAppend(a: seq<string>, b: seq<string>)
    ensures KeepNonBlank(a + b) == KeepNonBlank(a) + KeepNonBlank(b)
    decreases |b|
  {
    if b == [] {
      assert a + b == a;
    } else {
      var init, last := b[..|b| - 1], b[|b| - 1];
      KeepNonBlankAppend(a, init);
      assert b == init + [last];
      Regroup(a, init, [last]);
      KeepNonBlankSnoc(a + init, last);
      KeepNonBlankSnoc(init, last);
      Regroup(KeepNonBlank(a), KeepNonBlank(init), if IsBlank(last) then [] else [last]);
    }
  }

  lemma {:induction false} KeepNonBlankOfBlanks(blanks: seq<string>)
    requires forall i :: 0 <= i < |blanks| ==> blanks[i] == ""
    ensures KeepNonBlank(blanks) == []
    decreases |blanks|
  {
    if blanks != [] {
      KeepNonBlankOfBlanks(blanks[..|blanks| - 1]);
    }
  }

  lemma {:induction false} KeepNonBlankOfAddresses(addrs: seq<string>)
    requires forall i :: 0 <= i < |addrs| ==> !IsBlank(addrs[i])
    ensures KeepNonBlank(addrs) == addrs
    decreases |addrs|
  {
    if addrs != [] {
      KeepNonBlankOfAddresses(addrs[..|addrs| - 1]);
      assert addrs == addrs[..|addrs| - 1] + [addrs[|addrs| - 1]];
    }
  }

  /** The server list a header gives: the non-blank comma-separated pieces. */
  function ParseServers(serversLine: string): seq<string> {
    KeepNonBlank(Split(serversLine, ','))
  }

  /** An empty header gives an empty list. */
  lemma EmptyHeaderNoServers()
    ensures ParseServers("") == []
  {
    assert Split("", ',') == [""];
    assert KeepNonBlank([""]) == KeepNonBlank([]) + [];
  }

  /**
   * The registry's answer, a run of empty strings followed by the alive
   * addresses joined by commas, parses back to exactly those addresses, in
   * order, when no address is blank or holds a comma.
   */
  lemma RegistryListParses(listed: seq<string>, n: nat)
    requires n <= |listed|
    requires forall i :: 0 <= i < n ==> listed[i] == ""
    requires forall i :: n <= i < |listed| ==> !IsBlank(listed[i]) && ',' !in listed[i]
    ensures ParseServers(Join(listed, ',')) == listed[n..]
  {
    if listed == [] {
      EmptyHeaderNoServers();
    } else {
      SplitJoin(listed, ',');
      KeepAfterBlanks(listed, n);
    }
  }

  lemma {:induction false} KeepAfterBlanks(listed: seq<string>, n: nat)
    requires n <= |listed|
    requires forall i :: 0 <= i < n ==> listed[i] == ""
    requires forall i :: n <= i < |listed| ==> !IsBlank(listed[i])
    ensures KeepNonBlank(listed) == listed[n..]
    decreases |listed|
  {
    if n == |listed| {
      KeepNonBlankOfBlanks(listed);
    } else {
      var init, last := listed[..|listed| - 1], listed[|listed| - 1];
      KeepAfterBlanks(init, n);
      assert init[n..] + [last] == listed[n..];
    }
  }

  /** `lastUpdate.Add(timeout).After(now)`; the zero time (None) is never recent. */
  predicate Throttled(lastUpdate: Option<int>, timeout: int, now: int) {
    lastUpdate.Some? && lastUpdate.value + timeout > now
  }

  class GeeMultiDiscovery {
    const md: MultiDiscovery
    const timeout: int
    const registry: string
    var lastUpdate: Option<int>

    ghost predicate Valid()
      reads this, md
    {
      md.Valid()
    }

    /** NewGeeMultiDiscovery: an empty list, never updated; a zero timeout means one second (discovery_gee.go:19-29). */
    constructor (registryPath: string, timeout: int)
      ensures Valid() && fresh(md)
      ensures this.timeout == (if timeout == 0 then DefaultUpdateTimeout else timeout)
      ensures this.timeout != 0
      ensures registry == registryPath && md.servers == [] && lastUpdate == None
    {
      md := new MultiDiscovery([]);
      this.timeout := if timeout == 0 then DefaultUpdateTimeout else timeout;
      registry := registryPath;
      lastUpdate := None;
    }

    /** GeeMultiDiscovery.Update: does nothing and succeeds (discovery_gee.go:31-33). */
    method Update(list: seq<string>) returns (err: Option<string>)
      ensures err == None
    {
      err := None;
    }

    /**
     * GeeMultiDiscovery.Refresh: nothing while the last update is younger
     * than the timeout; a failed fetch is returned and changes nothing;
     * otherwise the list becomes the header's non-blank pieces and the
     * update time is now (discovery_gee.go:35-55).
     */
    method Refresh(now: int, fetch: Fetch) returns (err: Option<string>)
      requires Valid()
      modifies this`lastUpdate, md`servers
      ensures Valid()
      ensures Throttled(old(lastUpdate), timeout, now) ==>
                err == None && md.servers == old(md.servers) && lastUpdate == old(lastUpdate)
      ensures !Throttled(old(lastUpdate), timeout, now) && fetch.FetchFailed? ==>
                err == Some(fetch.err) && md.servers == old(md.servers) && lastUpdate == old(lastUpdate)
      ensures !Throttled(old(lastUpdate), timeout, now) && fetch.Fetched? ==>
                err == None && md.servers == ParseServers(fetch.serversLine) && lastUpdate == Some(now)
    {
      if Throttled(lastUpdate, timeout, now) {
        return None;
      }
      if fetch.FetchFailed? {
        return Some(fetch.err);
      }
      var pieces := Split(fetch.serversLine, ',');
      var list: seq<string> := [];
      var i := 0;
      while i < |pieces|
        invariant 0 <= i <= |pieces|
        invariant list == KeepNonBlank(pieces[..i])
      {
        TrimSpaceEmpty(pieces[i]);
        if TrimSpace(pieces[i]) != "" {
          list := list + [pieces[i]];
        }
        assert pieces[..i + 1][..i] == pieces[..i];
        i := i + 1;
      }
      assert pieces[..i] == pieces;
      md.servers := list;
      lastUpdate := Some(now);
      err := None;
    }

    /** GeeMultiDiscovery.Get: refresh first; its error is returned without selecting (discovery_gee.go:57-62). */
    method Get(mode: int, now: int, fetch: Fetch) returns (r: Result<string>)
      requires Valid()
      modifies this`lastUpdate, md
      ensures Valid()
      ensures !Throttled(old(lastUpdate), timeout, now) && fetch.FetchFailed? ==>
                r == Err(fetch.err) && md.servers == old(md.servers) && md.index == old(md.index)
      ensures Throttled(old(lastUpdate), timeout, now) ==> md.servers == old(md.servers) && Selected(md, mode, r)
      ensures !Throttled(old(lastUpdate), timeout, now) && fetch.Fetched? ==>
                md.servers == ParseServers(fetch.serversLine) && Selected(md, mode, r)
    {
      var err := Refresh(now, fetch);
      if err.Some? {
        return Err(err.value);
      }
      r := md.Get(mode);
    }

    /** GeeMultiDiscovery.GetAll: refresh first, then the (copied) list (discovery_gee.go:64-70). */
    method GetAll(now: int, fetch: Fetch) returns (r: Result<seq<string>>)
      requires Valid()
      modifies this`lastUpdate, md`servers
      ensures Valid()
      ensures !Throttled(old(lastUpdate), timeout, now) && fetch.FetchFailed? ==> r == Err(fetch.err)
      ensures Throttled(old(lastUpdate), timeout, now) ==> r == Ok(old(md.servers))
      ensures !Throttled(old(lastUpdate), timeout, now) && fetch.Fetched? ==> r == Ok(ParseServers(fetch.serversLine))
    {
      var err := Refresh(now, fetch);
      if err.Some? {
        return Err(err.value);
      }
      r := md.GetAll();
    }
  }
}
