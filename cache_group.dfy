/**
 * The read-through cache group of geecache/group.go.
 *
 * A group answers `Get(key)` from its local cache, otherwise from the peer
 * the picker chooses, otherwise from the user's getter, caching only what the
 * getter returned. The global `groups` table is the `Registry` class. The
 * getter is a function of the key (the user callback); what the picked peer
 * answers arrives as a `PeerAnswer` parameter. The local cache (cache.go,
 * not part of this model) is a map from key to view. `loads` records every
 * call of the getter, as the package test counts them.
 */
module CacheGroup {
  import opened Wrappers
  import opened Utf8
  import opened CacheByteView

  /** Getter: the user callback that loads the bytes of a key, or fails. */
  type Getter = string -> Result<seq<byte>>

  /** What consulting the peer layer gives: no peer picked, or the picked peer's reply. */
  datatype PeerAnswer = NotPicked | Fetched(data: Result<seq<byte>>)

  /** Every cached view holds exactly what the getter returns for its key. */
  ghost predicate CacheAgrees(cache: map<string, ByteView>, getter: Getter) {
    forall k :: k in cache ==> getter(k) == Ok(cache[k].b)
  }

  /** Group.getFromPeers: a peer's bytes become a view over a copy of them; its error passes through. */
  function FromPeer(data: Result<seq<byte>>): (r: Result<ByteView>)
    ensures r.Ok? <==> data.Ok?
    ensures data.Ok? ==> r.value.b == data.value
    ensures data.Err? ==> r.msg == data.msg
  {
    match data
    case Ok(bytes) => Ok(ByteView(bytes))
    case Err(e) => Err(e)
  }

  class Group {
    const name: string
    const getter: Getter
    const cacheBytes: int
    var mainCache: map<string, ByteView>
    var hasPeer: bool
    ghost var loads: seq<string>

    ghost predicate Valid()
      reads this
    {
      CacheAgrees(mainCache, getter)
    }

    constructor (name: string, getter: Getter, cacheBytes: int)
      ensures Valid()
      ensures this.name == name && this.getter == getter && this.cacheBytes == cacheBytes
      ensures mainCache == map[] && !hasPeer && loads == []
    {
      this.name := name;
      this.getter := getter;
      this.cacheBytes := cacheBytes;
      mainCache := map[];
      hasPeer := false;
      loads := [];
    }

    /** Group.RegisterPeer: the first call installs the picker; a second one aborts (group.go:64-69). */
    method RegisterPeer() returns (abort: Option<string>)
      modifies this`hasPeer
      ensures old(hasPeer) ==> abort == Some("RegisterPeerPicker called more than once") && hasPeer
      ensures !old(hasPeer) ==> abort == None && hasPeer
    {
      if hasPeer {
        abort := Some("RegisterPeerPicker called more than once");
      } else {
        hasPeer := true;
        abort := None;
      }
    }

    /**
     * Group.Get: the empty key is an error; a cached key is answered from the
     * cache; anything else is loaded (group.go:51-62).
     */
    method Get(key: string, peer: PeerAnswer) returns (r: Result<ByteView>)
      requires Valid()
      modifies this`mainCache, this`loads
      ensures Valid()
      ensures key == "" ==> r == Err("key is required") && mainCache == old(mainCache) && loads == old(loads)
      ensures key != "" && key in old(mainCache) ==>
                r == Ok(old(mainCache)[key]) && mainCache == old(mainCache) && loads == old(loads)
      ensures key != "" && key !in old(mainCache) ==> Loaded(key, peer, r)
      ensures r.Ok? && !(hasPeer && peer.Fetched? && peer.data.Ok? && key !in old(mainCache)) ==>
                getter(key) == Ok(r.value.b)
    {
      if key == "" {
        return Err("key is required");
      }
      if key in mainCache {
        return Ok(mainCache[key]);
      }
      r := Load(key, peer);
    }

    /**
     * What `load` does to a missing key: a picked peer's successful reply is
     * returned and not cached; otherwise the getter is called (and the call
     * logged in `loads`) and its answer returned, and cached when it succeeds.
     */
    twostate predicate Loaded(key: string, peer: PeerAnswer, new r: Result<ByteView>)
      reads this
    {
      if hasPeer && peer.Fetched? && peer.data.Ok? then
        r == Ok(ByteView(peer.data.value)) && mainCache == old(mainCache) && loads == old(loads)
      else
        match getter(key)
        case Ok(bytes) =>
          r == Ok(ByteView(bytes)) && mainCache == old(mainCache)[key := ByteView(bytes)]
          && loads == old(loads) + [key]
        case Err(e) => r == Err(e) && mainCache == old(mainCache) && loads == old(loads) + [key]
    }

    /** Group.load: the peer first, when one is registered and picked and answers; else locally (group.go:71-86). */
    method Load(key: string, peer: PeerAnswer) returns (r: Result<ByteView>)
      requires Valid()
      modifies this`mainCache, this`loads
      ensures Valid()
      ensures Loaded(key, peer, r)
    {
      if hasPeer && peer.Fetched? {
        var fromPeer := FromPeer(peer.data);
        if fromPeer.Ok? {
          return fromPeer;
        }
      }
      r := LoadLocally(key);
    }

    /** Group.loadLocally: call the getter; on success cache a view over a copy of its bytes (group.go:96-104). */
    method LoadLocally(key: string) returns (r: Result<ByteView>)
      requires Valid()
      modifies this`mainCache, this`loads
      ensures Valid()
      ensures loads == old(loads) + [key]
      ensures getter(key).Err? ==> r == Err(getter(key).msg) && mainCache == old(mainCache)
      ensures getter(key).Ok? ==>
                && r == Ok(ByteView(getter(key).value))
                && mainCache == old(mainCache)[key := ByteView(getter(key).value)]
    {
      var got := getter(key);
      loads := loads + [key];
      if got.Err? {
        return Err(got.msg);
      }
      var cached := ByteView(got.value);
      mainCache := mainCache[key := cached];
      r := Ok(cached);
    }
  }

  /** The package's table of groups by name. */
  class Registry {
    var groups: map<string, Group>

    constructor ()
      ensures groups == map[]
    {
      groups := map[];
    }

    /**
     * NewGroup: a missing getter or a name already taken aborts; otherwise a
     * fresh, empty group is registered under its name (group.go:23-40).
     */
    method NewGroup(getter: Option<Getter>, name: string, cacheBytes: int) returns (r: Result<Group>)
      modifies this
      ensures getter.None? ==> r == Err("getter is nil") && groups == old(groups)
      ensures getter.Some? && name in old(groups) ==> r == Err("groups exist") && groups == old(groups)
      ensures getter.Some? && name !in old(groups) ==>
                && r.Ok? && fresh(r.value) && r.value.Valid()
                && r.value.name == name && r.value.getter == getter.value
                && r.value.mainCache == map[] && !r.value.hasPeer
                && groups == old(groups)[name := r.value]
                && GetGroup(name) == Some(r.value)
    {
      if getter.None? {
        return Err("getter is nil");
      }
      if name in groups {
        return Err("groups exist");
      }
      var g := new Group(name, getter.value, cacheBytes);
      groups := groups[name := g];
      r := Ok(g);
    }

    /** GetGroup: the group registered under `name`, or none (group.go:42-49). */
    function GetGroup(name: string): (g: Option<Group>)
      reads this
      ensures g.Some? <==> name in groups
      ensures g.Some? ==> g.value == groups[name]
    {
      if name in groups then Some(groups[name]) else None
    }
  }
}
