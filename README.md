# gee, geecache and geerpc in Dafny

This project models the bookkeeping and parsing core of three small Go
frameworks written side by side:

- **geecache**, a distributed read-through cache. It covers:
  - the byte-budgeted LRU list (`lru.go`);
  - the consistent-hash ring of virtual nodes (`consistenthash.go`);
  - the cache group with its peer-first, getter-second load path (`group.go`);
  - the HTTP peer pool, meaning the ring choice of a peer, the request path the server cuts into group and key, and the URL a peer getter builds (`http.go`);
  - the immutable byte views (`byteview.go`).
- **geerpc**, an RPC framework. It covers:
  - the server's service table, `Service.Method` resolution, handshake check, request-reading loop and HTTP CONNECT gate (`server.go`);
  - the client's pending-call table, shutdown flags, per-header receive decision, `protocol@addr` parsing and option defaulting (`client.go`);
  - the liveness registry (`registry.go`);
  - static and registry-backed discovery (`discovery.go`, `discovery_gee.go`);
  - the load-balancing client, with its per-address pool and broadcast result merge (`xclient.go`).
- **gee**, a web framework. It covers:
  - the exact-match route tables of the router (`router.go`) and of the engine (`gee.go`);
  - the request context: the middleware `Next` index discipline, parameters, status, headers and response writers (`context.go`).

Each Go file is one module. Objects that the Go code updates in place are
classes whose methods carry `modifies` clauses, and their loops carry their
invariants. Pure decisions are functions. Each operation is tied by a lemma or
an `ensures` clause to a partner: a round trip, a preserved invariant or an
independent reference function.

Four helper modules support the rest:

- `Wrappers`: `Option` and `Result`.
- `GoStrings`: the parts of `strings` and `strconv` the code calls.
- `Utf8`: the conversions between `string` and `[]byte`.
- `GoFmt`: `fmt.Sprintf` and `fmt.Errorf` with string operands.

One helper function sits in the ring's module: `ConsistentHash.ChecksumIeee`, the IEEE CRC-32 of ISO 3309 / ITU-T V.42, written out bit by bit.

The environment arrives as parameters:

- time is an integer `now` in nanoseconds;
- the replies of HTTP GETs, dials and codecs are `Result` values or frame sequences;
- a random choice is any valid choice;
- Go's map iteration order is a nondeterministic `:|` pick.

Four behaviours of the code are reproduced as written:

- `Client.Close` sets `shutdown` and never `closed`, so the `ErrShutdown` guard in `Close` cannot fire.
- After a CONNECT the server writes `"\n\n"`, not `"\r\n\r\n"`.
- When `receive` ends, `terminateCalls` completes every pending call but neither clears `pending` nor marks the client shut down.
- `readRequest` never returns a request together with an error, so the error-response branch of `serveCodec` cannot be reached.

## Model

| member | source | states |
|---|---|---|
| CacheLru.Cache.constructor | geecache/lru/lru.go:22-29 | an empty cache with the given budget and callback, whose byte count equals the (zero) total charge |
| CacheLru.Cache.Get | geecache/lru/lru.go:31-38 | a hit returns the key's value and moves exactly that entry to the front, as a permutation of the list; a miss returns nothing and leaves the list as it was; list and map stay mirrored |
| CacheLru.Cache.MoveHitToFront | geecache/lru/lru.go:33 | list.MoveToFront on a cached key: the entry at the front is the key with its cached value, and the list is a permutation of the old one |
| CacheLru.HitMovesToFront | geecache/lru/lru.go:31-35 | for a key in the map, the moved list starts with that key and its map value and still mirrors the map |
| CacheLru.Cache.RemoveOldest | geecache/lru/lru.go:40-53 | an empty cache is unchanged; otherwise the back entry leaves both list and map, its key's UTF-8 byte length plus its value length is uncharged, the callback logs it once when set, and an exact byte count stays exact |
| CacheLru.Cache.Upsert | geecache/lru/lru.go:57-64 | an existing key moves to the front with its value replaced (no second entry) and the old value is reported; a new key is pushed at the front; the map gets key := value |
| CacheLru.Cache.EvictWhileOver | geecache/lru/lru.go:67-69 | evicts from the back while over a non-zero budget: the list kept is a prefix, the evicted suffix is uncharged and logged back to front, eviction stopped only when the budget was met or the list ran out, budget 0 evicts nothing, and with an exact count and a non-negative budget the loop ends |
| CacheLru.Cache.Add | geecache/lru/lru.go:56-70 | Add as written: upsert, then the byte count moves by old length minus new length (line 60), or by the key's UTF-8 byte length plus the value length for a new key (line 65), before evicting; `spins` reports the state in which the Go loop never exits |
| CacheLru.Cache.AddIntended | geecache/lru/lru.go:56-70 | Add with the adjustment new length minus old: the byte count stays the total charge, each key charged its UTF-8 byte length, the loop spins only on a negative budget, and afterwards the cache is within a non-zero budget |
| CacheLru.ReplaceWithSmallerValueSpins | geecache/lru/lru.go:60 | on a 10-byte budget, adding "a" with 9 bytes and then with 1 byte leaves the as-written Add in its endless eviction loop |
| CacheLru.Cache.Len | geecache/lru/lru.go:72-74 | the number of list entries, which equals the number of keys in the map |
| CacheLru.MirrorsCover | geecache/lru/lru.go:32-33 | list and map hold exactly the same key set, and a key is in the map exactly when it has a list position |
| CacheLru.MirrorsLookup | geecache/lru/lru.go:32-35 | a map lookup agrees with finding the key in the list, value included |
| CacheLru.DropBackMirrors | geecache/lru/lru.go:43-45 | removing the back entry from list and map keeps them mirrored |
| CacheLru.MoveToFrontMirrors | geecache/lru/lru.go:33 | moving an entry to the front is a permutation that keeps list and map mirrored |
| CacheLru.PushFrontMirrors | geecache/lru/lru.go:63-64 | pushing a new key at the front and adding it to the map keeps them mirrored |
| CacheLru.UpsertedMirrors | geecache/lru/lru.go:57-64 | Add's first phase keeps list and map mirrored and puts the key at the front |
| CacheLru.UpsertedSize | geecache/lru/lru.go:60-65 | the total charge after the first phase of Add is the old total plus the intended delta: the entry size (key's UTF-8 byte length plus value length) for a new key, new minus old value length for a replaced one |
| CacheLru.DistinctKeySetSize | geecache/lru/lru.go:72-74 | a list with distinct keys has as many keys as entries |
| ConsistentHash.Map.constructor | geecache/consistenthash/consistenthash.go:18-28 | an empty ring; a missing hash function means crc32.ChecksumIEEE, a given one is used as it is |
| ConsistentHash.Map.Add | geecache/consistenthash/consistenthash.go:30-39 | afterwards the points are sorted and are, as a multiset, the old points plus `replicas` points per name; each new point is owned by the last name that placed it, and the ring stays valid |
| ConsistentHash.Map.AddPoints | geecache/consistenthash/consistenthash.go:31-37 | the nested loops append exactly the ring points of the names, in order, and record their owners |
| ConsistentHash.Map.AddReplicas | geecache/consistenthash/consistenthash.go:32-36 | the inner loop appends replica points 0..replicas-1 of one name and makes it their owner |
| ConsistentHash.Map.Get | geecache/consistenthash/consistenthash.go:41-50 | the empty key gives ""; otherwise the owner of the first point at or after the key's hash, wrapping to the smallest point, which is always a name passed to Add; reads only, and an empty ring with a non-empty key is excluded because Go divides by zero there |
| ConsistentHash.Insert | geecache/consistenthash/consistenthash.go:38 | inserting into a sorted list keeps it sorted and adds exactly one copy of the point |
| ConsistentHash.SortInts | geecache/consistenthash/consistenthash.go:38 | sort.Ints: sorted ascending and a permutation of its input |
| ConsistentHash.Search | geecache/consistenthash/consistenthash.go:45-47 | sort.Search: the first index whose point is at or after the hash, every point before it smaller |
| ConsistentHash.SuccessorUnique | geecache/consistenthash/consistenthash.go:45-49 | a sorted ring assigns one position to each hash, so Get's answer is determined |
| ConsistentHash.SuccessorExists | geecache/consistenthash/consistenthash.go:45-49 | a non-empty sorted ring has a successor position for every hash |
| ConsistentHash.WrapIndex | geecache/consistenthash/consistenthash.go:49 | `idx % len(keys)` is idx itself, or 0 when Search ran off the end |
| ConsistentHash.RingPointsCount | geecache/consistenthash/consistenthash.go:31-32 | Add places exactly `replicas` points per name |
| ConsistentHash.NamePointsAt | geecache/consistenthash/consistenthash.go:32-34 | replica i of a name is the hash of `strconv.Itoa(i)` followed by the name |
| ConsistentHash.AppendedIsConcat | geecache/consistenthash/consistenthash.go:31-37 | the loops append exactly the ring points of the names to the old points |
| ConsistentHash.AssignedOwners | geecache/consistenthash/consistenthash.go:35 | after Add every new point belongs to one of the added names, and old points not hit again keep their owners |
| ConsistentHash.LastNameOwnsItsPoints | geecache/consistenthash/consistenthash.go:35 | the last name added owns every one of its points |
| ConsistentHash.AddKeepsValid | geecache/consistenthash/consistenthash.go:30-39 | what Add leaves behind has exactly the sorted points as owner keys, every owner an added name |
| ConsistentHash.HashOf | geecache/consistenthash/consistenthash.go:45 | `int(hash([]byte(key)))` lies in [0, 2^32) |
| CacheByteView.ByteView.Len | geecache/byteview.go:7-9 | the number of bytes the view holds, never fewer than the characters String reads from them |
| CacheByteView.ByteView.String | geecache/byteview.go:11-13 | the bytes read as text: no more characters than bytes, and bytes below 0x80 read as the same characters one for one |
| CacheByteView.ByteView.ByteSlice | geecache/byteview.go:15-17 | a fresh array holding exactly the view's bytes, so writing it cannot change the view |
| CacheByteView.CloneBytes | geecache/byteview.go:19-23 | a fresh array of the same length and the same contents |
| CacheByteView.ViewOfText | geecache/byteview.go:7-13 | a view over the bytes of a text reads back as that text, and its length is their count |
| CacheGroup.FromPeer | geecache/group.go:88-94 | a peer's bytes become a view over them, and its error passes through unchanged |
| CacheGroup.Group.constructor | geecache/group.go:32-38 | a group with the given name, getter and budget, an empty cache, no peers and no loads |
| CacheGroup.Group.RegisterPeer | geecache/group.go:64-69 | the first call installs the picker; a second one aborts with "RegisterPeerPicker called more than once" |
| CacheGroup.Group.Get | geecache/group.go:51-62 | the empty key fails with "key is required" and touches neither cache nor getter; a cached key is answered from the cache without a load; a miss is loaded; every successful answer that did not come from a peer agrees with the getter |
| CacheGroup.Group.Load | geecache/group.go:71-86 | a registered, picked peer that answers is returned and not cached; otherwise the getter is called once and its answer returned |
| CacheGroup.Group.LoadLocally | geecache/group.go:96-104 | the getter is called once; an error is returned and nothing cached; bytes are cached and returned as a view |
| CacheGroup.Registry.constructor | geecache/group.go:18-21 | the table of groups starts empty |
| CacheGroup.Registry.NewGroup | geecache/group.go:23-40 | a missing getter or a taken name aborts and changes nothing; otherwise a fresh empty group is registered under its name and GetGroup finds it |
| CacheGroup.Registry.GetGroup | geecache/group.go:42-49 | the group registered under the name, or none exactly when there is none |
| CacheHttp.ParsePath | geecache/http.go:100-110 | a path outside the base path is unexpected; a remainder without '/' is a bad request; otherwise the cut is at the first '/', the group has no '/' and the key keeps the rest |
| CacheHttp.ParseBuiltPath | geecache/http.go:106-110 | base + group + "/" + key with a slash-free group parses back to that group and key |
| CacheHttp.QueryEscapeNoSlash | geecache/http.go:33-34 | a query-escaped group or key never contains '/', so on the wire it is one path segment |
| CacheHttp.ServerReadsRequestedPath | geecache/http.go:33-34 | the URL path a peer getter requests, with its escapes undone as net/http does for the serving pool, is base + group + "/" + key and cuts back into that group and key, for a group without '/' and a group and key without spaces |
| CacheHttp.KeyWithSpaceArrivesWithPlus | geecache/http.go:33-34 | url.QueryEscape writes the key "a b" as "a+b", and the serving pool reads the key "a+b" |
| CacheHttp.ServerReadsSegmentEscapedPath | geecache/http.go:33-34 | with the space escaped as %20, the requested path reads back as base + group + "/" + key for every key and every group without '/' |
| CacheHttp.HttpGetter.constructor | geecache/http.go:84 | a getter keeps the base path it is given |
| CacheHttp.HttpGetter.Get | geecache/http.go:26-51 | the base path gains a trailing '/' if it lacks one (kept); the URL is base + escaped group + "/" + escaped key; transport errors, non-200 statuses and failed body reads become errors, and a 200 returns the body |
| CacheHttp.NewGetters | geecache/http.go:83-85 | one fresh getter per listed peer, with base path peer + "/_geecache/" |
| CacheHttp.PeerSetElements | geecache/http.go:83-85 | the peers getters are made for are exactly the listed addresses |
| CacheHttp.HttpPool.constructor | geecache/http.go:66-71 | a pool for its own address, serving under "/_geecache/", with no ring and no getters |
| CacheHttp.HttpPool.Set | geecache/http.go:77-86 | a fresh valid 50-replica CRC-32 ring over exactly the listed peers, and a getter per peer whose base path is peer + "/_geecache/" |
| CacheHttp.HttpPool.PickPeer | geecache/http.go:88-96 | a getter exactly when the ring's choice is non-empty and not the pool itself, and then the getter of that choice |
| CacheHttp.HttpPool.ServeHTTP | geecache/http.go:98-126 | a path outside the base path aborts; 400 "bad request", 404 "no such group" and 500 with the lookup error; otherwise 200 with the view's bytes as octet-stream; the empty key gets "key is required", a cached key its cached view, and a miss the answer of the group's load path |
| RpcServer.FindService | geerpc/server.go:68-86 | no '.' is "ill-formed"; otherwise the cut is at the last '.', and a success names a registered service and one of its methods whose "service.method" is the input; unknown service and unknown method have their own messages |
| RpcServer.ResolveQualified | geerpc/server.go:69-86 | every registered "Service.Method" resolves back to that service and method, so "A.B.C" is method C of service A.B |
| RpcServer.LastDot | geerpc/server.go:69 | in s + "." + m with a dot-free m, the last '.' is at the end of s |
| RpcServer.AcceptOption | geerpc/server.go:127-160 | a connection is served exactly when the option was readable, the magic number is 0x3bef5c and the codec type has a constructor; it is then served with that codec and the option's handle timeout |
| RpcServer.DefaultOptionAccepted | geerpc/server.go:28-32 | the default option passes the server's check when gob is registered |
| RpcServer.ReadRequest | geerpc/server.go:221-247 | a request comes back exactly when no error does; a failed header read gives only its error |
| RpcServer.ReadRequestResolves | geerpc/server.go:227-246 | a read header is refused exactly when findService fails, with its message; otherwise the request carries the service and method that compose its name, whatever became of the body |
| RpcServer.ServedPrefix | geerpc/server.go:162-180 | the requests serveCodec dispatches are, in order, the requests of the first frames |
| RpcServer.ServedStopsAtRefusal | geerpc/server.go:166-173 | the loop stops only at a frame readRequest refuses, or when the stream ends |
| RpcServer.ServeHttp | geerpc/server.go:101-115 | anything but CONNECT gets 405 "405 must CONNECT\n"; CONNECT gets "HTTP/1.0 200 Connected to Gee RPC" and "\n\n", then the connection is served |
| RpcServer.Server.constructor | geerpc/server.go:54-56 | no services |
| RpcServer.Server.Register | geerpc/server.go:60-66 | a name already taken returns "rpc: service already defined: " + name and keeps the first service; otherwise the service is filed under its name |
| RpcServer.Server.ServeCodec | geerpc/server.go:162-180 | dispatches exactly the requests read before the first failure and leaves without writing any error response |
| RpcClient.ReceiveOne | geerpc/client.go:75-94 | one receive iteration: a header read failure ends the loop and completes nothing; an unknown number discards its body and ends the loop only when that read fails; a known number leaves the table; a header error completes that call with the error as fmt.Errorf formats it and ends the loop; otherwise the call completes, with "read body error: " and the read error when the body read fails, and the loop ends exactly when it fails; calls are conserved and none completes twice |
| RpcClient.HeaderErrorVerbatim | geerpc/client.go:83-86 | a header error without '%' reaches the call and ends the loop unchanged |
| RpcClient.HeaderErrorTrailingPercent | geerpc/client.go:83-86 | a header error ending in a lone '%', with no other '%' (such as "100%"), reaches the loop with "%!(NOVERB)" in place of that '%' |
| RpcClient.ReceiveAll | geerpc/client.go:74-95 | the receive loop always ends with an error, and every call once pending is either still pending, unchanged, or completed, and no call is completed twice |
| RpcClient.ComposeSteps | geerpc/client.go:74-95 | two stretches of the loop that each account for their starting calls, none completed twice, account together for the first table with no call completed twice |
| RpcClient.TerminateStep | geerpc/client.go:122-127 | completing one more pending call with the error keeps terminateCalls' accounting |
| RpcClient.Client.constructor | geerpc/client.go:167-171 | numbering starts at 1, nothing pending, open, no completions |
| RpcClient.Client.IsAvailable | geerpc/client.go:42-46 | exactly `!shutdown && !closed`; since Valid keeps `closed` false, on a valid client it is exactly `!shutdown` |
| RpcClient.Client.Close | geerpc/client.go:32-40 | `closed` never changes; on an open client, closing marks it shut down, unavailable, and returns what closing the codec returned |
| RpcClient.Client.RegisterCall | geerpc/client.go:99-109 | an unavailable client refuses with "connection is shut down" and changes nothing; otherwise the call takes the current number, which was not pending, is filed under it, and the counter moves on by one |
| RpcClient.Client.RemoveCall | geerpc/client.go:111-117 | the call filed under the number, or none, and only that entry leaves the table, so a second removal finds nothing |
| RpcClient.Client.TerminateCalls | geerpc/client.go:119-128 | every pending call completes once with the error, in some order; the table and the flags are left as they are |
| RpcClient.Client.ReceiveFrame | geerpc/client.go:75-94 | one iteration on the client's table, as ReceiveOne describes it |
| RpcClient.Client.ReceiveLoop | geerpc/client.go:74-95 | the loop on the client's table ends in the state ReceiveAll describes |
| RpcClient.ReceiveContinues | geerpc/client.go:74-95 | an iteration that does not end the loop keeps the loop's invariant |
| RpcClient.ReceiveEnds | geerpc/client.go:74-95 | an iteration that ends the loop leaves the state ReceiveAll describes |
| RpcClient.Client.Receive | geerpc/client.go:71-97 | the loop followed by terminateCalls with its error: every call pending at the start has completed by the end, and no call has completed twice |
| RpcClient.ReceivedThenTerminated | geerpc/client.go:95-96 | the loop's completions followed by terminateCalls' cover the starting table, each call once |
| RpcClient.XDialPlan | geerpc/client.go:236-248 | an address is accepted exactly when it splits on '@' into protocol and address; otherwise the "wrong format" error |
| RpcClient.XDialPlanRoundTrip | geerpc/client.go:236-248 | any '@'-free protocol and address are recovered from protocol@addr, and "http" selects the tunnel over "tcp" |
| RpcClient.ParseOption | geerpc/client.go:250-262 | no option or a nil first one gives the default; more than one is an error; otherwise the caller's timeouts with the magic number forced and an empty codec type replaced by gob |
| RpcClient.ParsedOptionPassesHandshake | geerpc/client.go:250-262 | an option parseOption returns for gob or no codec passes the server's option check (AcceptOption) once decoded |
| RpcRegistry.Dispatch | geerpc/registry/registry.go:61-74 | GET lists; POST with an address announces it; an empty POST is 500; any other method is 405 |
| RpcRegistry.HeartbeatInterval | geerpc/registry/registry.go:86-89 | a zero interval becomes 4 s, the default timeout less one second |
| RpcRegistry.DefaultHeartbeatArrivesInTime | geerpc/registry/registry.go:86-89 | with the default timeout of 5 s (registry.go:24), a server beating at the default interval is still alive when its next beat is due, and expired after the default timeout |
| RpcRegistry.NoTimeoutKeepsAll | geerpc/registry/registry.go:51 | without a timeout nobody expires |
| RpcRegistry.SurvivorsIdempotent | geerpc/registry/registry.go:50-56 | a second sweep at the same time removes nothing more |
| RpcRegistry.Registry.constructor | geerpc/registry/registry.go:27-32 | no servers, the given timeout |
| RpcRegistry.Registry.PutServer | geerpc/registry/registry.go:36-44 | the address is recorded as starting now; a known one only has its start refreshed; no other entry changes |
| RpcRegistry.Registry.AliveServers | geerpc/registry/registry.go:46-58 | deletes exactly the expired entries; returns as many empty strings as there were entries, followed by the alive addresses, each once |
| RpcRegistry.AppendKept | geerpc/registry/registry.go:52 | appending a newly kept address keeps the listed part equal to the kept set |
| RpcRegistry.Registry.ServeHTTP | geerpc/registry/registry.go:60-75 | GET sweeps and answers the alive list joined by commas in X-Geerpc-Servers; POST with an address announces it; empty POST 500 and others 405 change nothing |
| RpcDiscovery.RoundRobinCoversOnce | geerpc/xclient/discovery.go:50-53 | n consecutive round-robin picks visit every position exactly once, whatever the starting index |
| RpcDiscovery.IndexAfterPosition | geerpc/xclient/discovery.go:50-53 | pick number j takes position (start + j) mod n |
| RpcDiscovery.MultiDiscovery.constructor | geerpc/xclient/discovery.go:67-74 | the given servers, and a starting index in [0, MaxInt32 - 1) |
| RpcDiscovery.MultiDiscovery.Update | geerpc/xclient/discovery.go:32-34 | succeeds and does not replace the list |
| RpcDiscovery.MultiDiscovery.Refresh | geerpc/xclient/discovery.go:36-38 | succeeds and changes nothing |
| RpcDiscovery.MultiDiscovery.Get | geerpc/xclient/discovery.go:40-57 | no servers is "no available server" with the index kept; random returns a listed server with the index kept; round-robin returns servers[index mod n] and moves the index to (index + 1) mod n; any other mode is an error that changes nothing |
| RpcDiscovery.MultiDiscovery.GetAll | geerpc/xclient/discovery.go:59-65 | a copy equal to the list; nothing changes |
| RpcGeeDiscovery.KeepNonBlank | geerpc/xclient/discovery_gee.go:49-53 | keeps, in order and untrimmed, exactly the pieces that are not all white space |
| RpcGeeDiscovery.KeepNonBlankAppend | geerpc/xclient/discovery_gee.go:49-53 | the filter distributes over concatenation, so the order is kept |
| RpcGeeDiscovery.EmptyHeaderNoServers | geerpc/xclient/discovery_gee.go:46-53 | an empty header gives an empty list |
| RpcGeeDiscovery.RegistryListParses | geerpc/xclient/discovery_gee.go:46-53 | the registry's answer, empty strings and then addresses joined by commas, parses back to exactly those addresses, in order |
| RpcGeeDiscovery.GeeMultiDiscovery.constructor | geerpc/xclient/discovery_gee.go:20-30 | an empty list, never updated, the registry path, and a zero timeout replaced by one second |
| RpcGeeDiscovery.GeeMultiDiscovery.Update | geerpc/xclient/discovery_gee.go:32-34 | succeeds and changes nothing |
| RpcGeeDiscovery.GeeMultiDiscovery.Refresh | geerpc/xclient/discovery_gee.go:36-56 | nothing while the last update is younger than the timeout; a failed fetch is returned and changes nothing; otherwise the list becomes the header's non-blank pieces and the update time is now |
| RpcGeeDiscovery.GeeMultiDiscovery.Get | geerpc/xclient/discovery_gee.go:58-63 | refreshes first; a refresh error is returned without selecting; otherwise the static selection over the refreshed list |
| RpcGeeDiscovery.GeeMultiDiscovery.GetAll | geerpc/xclient/discovery_gee.go:65-70 | refreshes first; a refresh error is returned; otherwise the refreshed list |
| RpcXClient.FirstFailure | geerpc/xclient/xclient.go:93-96 | the number of leading successes: all before it succeeded and the one at it failed |
| RpcXClient.FirstSuccess | geerpc/xclient/xclient.go:97-101 | the number of leading failures: all before it failed and the one at it succeeded |
| RpcXClient.FirstFailureUnique | geerpc/xclient/xclient.go:93-96 | the first failing position is the only failure preceded by successes alone |
| RpcXClient.FirstSuccessUnique | geerpc/xclient/xclient.go:97-101 | the first succeeding position is the only success preceded by failures alone |
| RpcXClient.MergeResults | geerpc/xclient/xclient.go:81-103 | the error is the first error seen, and cancel fires once, there; the reply is written at most once, from the first success, and never when the caller passed none |
| RpcXClient.AllSucceedNoError | geerpc/xclient/xclient.go:93-96 | when every call succeeds, or there are none, no error is returned |
| RpcXClient.XClient.constructor | geerpc/xclient/xclient.go:19-26 | an empty pool with the given mode and option |
| RpcXClient.XClient.Close | geerpc/xclient/xclient.go:28-36 | every pooled client is closed (left unavailable), the pool is empty, and nil is returned |
| RpcXClient.XClient.Dial | geerpc/xclient/xclient.go:38-56 | an available pooled client is returned without dialling or changing the pool; an unavailable one is closed and dropped first; a failed dial leaves no entry for the address and the others untouched; a successful one is pooled under it |
| RpcXClient.XClient.Call | geerpc/xclient/xclient.go:58-72 | a discovery failure is returned without dialling and with the pool unchanged; for a picked address an available pooled client answers; otherwise a bad address or a failed dial is returned with the address out of the pool, and a new connection is pooled and answers |
| RpcXClient.XClient.BroadCast | geerpc/xclient/xclient.go:74-108 | a discovery failure is returned at once; otherwise the merge of the results in completion order, the reply written at most once |
| WebRouter.RouteKeySameMethod | gee/router.go:15-17 | two keys for the same method coincide only for the same pattern |
| WebRouter.GetPostDistinct | gee/router.go:15-17 | GET and POST routes never share a key |
| WebRouter.NotFoundText | gee/router.go:24 | the not-found format puts the path between "Page " and " Not Found!" |
| WebRouter.Router.constructor | gee/router.go:9-13 | an empty handler table |
| WebRouter.Router.AddRouter | gee/router.go:15-17 | the handler is filed under method-pattern, replacing an earlier one and found by Lookup; other routes stay |
| WebRouter.Router.Lookup | gee/router.go:20-21 | a handler exactly when the exact method-path key is in the table, and then that handler |
| WebRouter.Router.Handle | gee/router.go:19-26 | the handler under the exact key is the one to run, with the context untouched; without one the context records 404 (sent unless a status was already sent) and Content-Type text/plain, and "Page <path> Not Found!" reaches the body when the status sent and the method allow one |
| WebEngine.Engine.constructor | gee/gee.go:41-43 | an empty route table |
| WebEngine.Engine.AddRouter | gee/gee.go:24-26 | the handler is filed under method-pattern, replacing an earlier one |
| WebEngine.Engine.Get | gee/gee.go:28-30 | registers under "GET-" + pattern, and a GET of that path now runs the handler |
| WebEngine.Engine.Post | gee/gee.go:32-34 | registers under "POST-" + pattern, and a POST of that path now runs the handler |
| WebEngine.Engine.ServeHTTP | gee/gee.go:15-22 | the handler under the exact method-path key exactly when there is one; otherwise the text "404 NOT FOUND!" |
| WebEngine.GetLeavesPostRoutes | gee/gee.go:24-34 | registering a GET route never changes what a POST request reaches |
| WebContext.Context.constructor | gee/context.go:86-95 | method and path from the request, no handlers, index -1, nothing written |
| WebContext.Context.Next | gee/context.go:26-32 | the index moves on by one before the bounds check; the walk runs the handlers from there to the first endpoint, in order, and leaves the index there |
| WebContext.Stop | gee/context.go:26-32 | where a walk from an index stops: past it, at the first endpoint after it, or at the end of the chain, with only middlewares in between |
| WebContext.Ran | gee/context.go:26-32 | the positions a walk runs: consecutive, starting just after the index |
| WebContext.ChainRunsEachOnce | gee/context.go:26-32 | when every handler but the last calls Next, a walk from -1 runs each handler once, in order |
| WebContext.EndpointStopsChain | gee/context.go:26-32 | the first endpoint stops the walk: the handlers after it never run |
| WebContext.Context.Param | gee/context.go:34-37 | the route parameter under the key, or "" when there is none |
| WebContext.Context.Status | gee/context.go:39-42 | callers may not pass a code outside 100-999 before a status is sent (net/http panics); the code is recorded in StatusCode and passed to WriteHeader, and only the first code passed is the status sent |
| WebContext.Context.SetHeader | gee/context.go:44-46 | the value is filed under the canonical form of the key, replacing an earlier value under any spelling of that key |
| WebContext.Context.Data | gee/context.go:55-58 | the status as Status records it; the data reach the body only when the status sent and the method allow a body (not 1xx, 204, 304 or a HEAD request) |
| WebContext.Context.HTML | gee/context.go:60-64 | Content-Type text/html, the status as Status records it, and the page in the body when the status sent and the method allow one |
| WebContext.Context.String | gee/context.go:66-70 | Content-Type text/plain, the status as Status records it, and the text fmt.Sprintf formats in the body when the status sent and the method allow one |
| WebContext.Context.Fail | gee/context.go:82-84 | Content-Type text/plain and the status, as String gives them; a message without '%' reaches the body as it is when the status sent and the method allow a body |
| WebContext.Context.Write | gee/context.go:57 | the text reaches the body exactly when the status sent and the request method allow a body |
| WebContext.CanonicalKeyIgnoresCase | gee/context.go:44-46 | two keys of token characters that differ only in ASCII case are filed under the same key |
| WebContext.CanonicalKeyIdempotent | gee/context.go:44-46 | a canonical key is its own canonical form |
| WebContext.ContentTypeKey | gee/context.go:60-70 | "Content-Type" is its own canonical form, and "content-type" is filed under it |
| GoFmt.SprintfPlain | gee/context.go:82-84 | a format without '%' and without operands is written as it is |
| GoFmt.SprintfTrailingPercent | geerpc/client.go:83-86 | a format ending in a lone '%', with no other '%', is written with "%!(NOVERB)" in place of that '%' |
| GoFmt.SprintfOneOperand | gee/router.go:24 | a format with one %v and no other '%' splices its operand in place of the verb |
| GoStrings.LastIndex | geerpc/server.go:69 | the last position of the character, with none after it, or -1 exactly when it is absent |
| GoStrings.SplitN2 | geecache/http.go:106 | at most two pieces: the text itself when the separator is absent, else the cut at its first occurrence |
| GoStrings.SplitJoin | geerpc/registry/registry.go:64 | splitting a join of separator-free pieces gives back the pieces |
| GoStrings.JoinSplit | geerpc/xclient/discovery_gee.go:47 | joining the pieces of a split gives back the text |
| GoStrings.TrimSpaceEmpty | geerpc/xclient/discovery_gee.go:50 | `strings.TrimSpace(v) != ""` holds exactly when v has a non-space character |
| Utf8.DecodeEncode | geecache/byteview.go:11-13 | reading back the UTF-8 bytes of a text gives the text |

## Left out

- The network, HTTP plumbing and clocks are parameters, not modelled:
  - dialling, `http.Get`, hijacking;
  - `Accept` and the `ServeConn` goroutines;
  - `newHttpClient`'s response parsing;
  - `sendHeartbeat` and the `Heartbeat` ticker loop;
  - `HandleHTTP`;
  - `time.Now`.
- The gob and JSON codecs, `newService` and `methodType` are not modelled, because they rely on reflection and are not part of this model. A service is its name and its method names.
- The handshake bytes are not modelled. The client writes a JSON line and the server reads a length-prefixed record, so `AcceptOption` starts from what was decoded.
- These concurrent paths are not modelled:
  - the server's request-timeout race (`handleRequest`, `sendResponse`);
  - the client's `send`, `Do` and `Call` with context cancellation;
  - `dialTimeout`.
- `geecache/singleflight` is not modelled. Sequentially its `Do(key, fn)` is `fn()`, so `Group.Load` calls through directly.
- The `mainCache` type (cache.go) is not part of this model. The group's cache is a map from key to view.
- `gee/middlewares.go` (timing, panic recovery) and `main.go` (demo wiring) are not modelled.
- `Context.Query`, `Context.PostForm` and `Context.JSON` are not modelled, because they read the request's form or encode JSON. `Data` writes text where Go writes bytes.
- WebContext.Context.Status: follows net/http as it was before Go 1.19, where every code passed first becomes the status sent. Since Go 1.19 an informational code other than 101 is sent at once without fixing the status, and a later write then fixes 200. That behaviour is not modelled.
- WebContext.Context.Write: modelled only after a status is fixed, as every writer of the context calls it. A handler writing before any `WriteHeader` gets an implicit 200 and a sniffed Content-Type; that is not modelled. The body is the text that goes out; chunking, `Content-Length` and the error `Write` returns are not modelled.
- The two `HandlerFunc` types of the gee package conflict. The router and the engine are modelled as separate tables over opaque handler values, and a handler is known only by whether it calls `Next`.
- RpcClient.Client.RegisterCall: the sequence number is an unbounded natural; the `uint64` wrap-around after 2^64 calls is not modelled.
- RpcClient.Client.TerminateCalls: each call's completion (the send on its `Done` channel) is recorded by appending it to `completed`, and the order is any order, as Go's map iteration gives.
- RpcXClient.XClient.BroadCast: the per-address calls run sequentially, and their dials, which in Go may add clients to the pool, are not modelled; only the merge of their results, in completion order, is.
- RpcXClient.XClient.Call: the call on the pooled client is its answer parameter; what the remote method does is not modelled.
- CacheLru.Cache.Add: `nBytes` and `maxBytes` are Go `int64` and `Value.Len` returns a Go `int`; the model uses unbounded integers and takes value lengths as natural numbers, so 64-bit overflow and a negative `Len` are not modelled.
- CacheLru.Cache.EvictWhileOver: where the Go loop would never exit (list empty, count still over budget), the model stops and reports `spins`.
- GoFmt.Sprintf: only string operands with the verbs `%v`, `%s` and `%%` are modelled; flags, width, precision and other operand types are not.
- RpcDiscovery.MultiDiscovery.Get: a random pick is any listed server; `math/rand` is not modelled.
- ConsistentHash.Map.Get: a non-empty key on an empty ring is a precondition, because Go computes `idx % 0` there and crashes.
- CacheHttp.HttpPool.PickPeer: a non-empty key before `Set` has made a ring is a precondition too, because Go calls `Get` on a nil ring there and crashes.
- CacheGroup.Group.Get: the getter is a fixed function of the key, so a repeated load gives the same answer and the cache agrees with the getter. A Go getter that changes over time (a database that is updated) is not modelled.
- CacheByteView.ByteView.String: a view is read back as text with invalid UTF-8 replaced by U+FFFD; a Go string keeps such bytes as they are, so only views over valid UTF-8 read back exactly.
- CacheHttp.HttpPool.ServeHTTP: the request path reaches the handler as text, so a path whose escapes undo to invalid UTF-8 is not modelled byte for byte; a malformed escape, which net/http rejects before any handler runs, is not served.
- CacheHttp.ServerReadsRequestedPath: stated for groups without '/', because the server undoes the escape `%2F` and then cuts the path at its first '/'; for spaces see the finding below.
- RpcClient.ParseOption: the Go function writes the magic number and the default codec type into the caller's own option value; the model returns an updated copy, so that aliasing is not captured.

## Findings

| source | as written | input that shows it | evidently intended | confidence | as-written member | corrected member |
|---|---|---|---|---|---|---|
| geecache/lru/lru.go:60 | replacing a value adds old length minus new length to `nBytes` | maxBytes 10; Add("a", 9-byte value), then Add("a", 1-byte value): `nBytes` goes 10 → 18, evicting "a" leaves 16 with an empty list, and the eviction loop never exits | add new length minus old, so `nBytes` stays the total charge and the loop ends within the budget | not executed | CacheLru.Cache.Add, CacheLru.ReplaceWithSmallerValueSpins | CacheLru.Cache.AddIntended |
| geecache/http.go:33-34 | the getter escapes group and key with url.QueryEscape, which writes a space as `+`; in a URL path `+` is not undone | Get("g", "a b") from a peer: the serving pool reads the key "a+b" and loads that key instead | escape path segments so that a space is written `%20`, as url.PathEscape does, and the server reads back the same key | not executed | CacheHttp.ServerReadsRequestedPath, CacheHttp.KeyWithSpaceArrivesWithPlus | CacheHttp.ServerReadsSegmentEscapedPath |
