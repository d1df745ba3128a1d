/**
 * The HTTP peer pool of geecache/http.go: the consistent-hash choice of a
 * peer, the request path the server parses, and the URL a peer getter builds.
 * The HTTP round trip itself is a parameter (`HttpReply`); what the server
 * writes back is a `Response` value.
 */
module CacheHttp {
  import opened Wrappers
  import opened Utf8
  import opened GoStrings
  import opened ConsistentHash
  import opened CacheByteView
  import opened CacheGroup

  const DefaultBasePath: string := "/_geecache/"
  const DefaultReplicas: int := 50

  /** Bytes that url.QueryEscape leaves alone: letters, digits and `-`, `_`, `.`, `~`. */
  predicate Unreserved(b: byte) {
    ('A' as byte <= b <= 'Z' as byte) || ('a' as byte <= b <= 'z' as byte)
    || ('0' as byte <= b <= '9' as byte)
    || b == '-' as byte || b == '_' as byte || b == '.' as byte || b == '~' as byte
  }

  function HexDigit(d: nat): char
    requires d < 16
  {
    "0123456789ABCDEF"[d]
  }

  /** How url.QueryEscape writes one byte: as is, a space as `+`, anything else as `%XX`. */
  function EscapeByte(b: byte): string {
    if Unreserved(b) then [b as int as char]
    else if b == 0x20 then "+"
    else ['%', HexDigit(b as int / 16), HexDigit(b as int % 16)]
  }

  function EscapeBytes(bs: seq<byte>): string
    decreases |bs|
  {
    if bs == [] then "" else EscapeByte(bs[0]) + EscapeBytes(bs[1..])
  }

  /** url.QueryEscape: the UTF-8 bytes of `s`, each escaped for a query component. */
  function QueryEscape(s: string): string {
    EscapeBytes(Encode(s))
  }

  /** An escaped byte is never a `/`: the slash itself is written `%2F`. */
  lemma EscapeByteNoSlash(b: byte)
    ensures '/' !in EscapeByte(b)
  {
    if !Unreserved(b) && b != 0x20 {
      var e := EscapeByte(b);
      assert e[0] == '%' && e[1] != '/' && e[2] != '/';
      assert e == [e[0], e[1], e[2]];
    }
  }

  lemma {:induction false} EscapeBytesNoSlash(bs: seq<byte>)
    ensures '/' !in EscapeBytes(bs)
    decreases |bs|
  {
    if bs != [] {
      EscapeByteNoSlash(bs[0]);
      EscapeBytesNoSlash(bs[1..]);
    }
  }

  /** A query-escaped group or key never contains `/`, so on the wire it stays one path segment. */
  lemma QueryEscapeNoSlash(s: string)
    ensures '/' !in QueryEscape(s)
  {
    EscapeBytesNoSlash(Encode(s));
  }

  /** How the server reads a request path (http.go:99-110). */
  datatype PathParse = Unexpected | BadRequest | Target(group: string, key: string)

  /**
   * A path outside the base path is unexpected; the rest is cut at its first
   * `/` into group and key (the key may hold more slashes); with no `/` the
   * request is bad.
   */
  function ParsePath(basePath: string, path: string): (r: PathParse)
    ensures r.Unexpected? <==> !HasPrefix(path, basePath)
    ensures r.BadRequest? <==> HasPrefix(path, basePath) && '/' !in path[|basePath|..]
    ensures r.Target? ==> '/' !in r.group && path == basePath + r.group + "/" + r.key
  {
    if !HasPrefix(path, basePath) then Unexpected
    else
      var rest := path[|basePath|..];
      var parts := SplitN2(rest, '/');
      if |parts| != 2 then BadRequest
      else
        assert path == basePath + rest;
        Target(parts[0], parts[1])
  }

  /** A path built from a slash-free group and any key parses back to that group and key. */
  lemma ParseBuiltPath(basePath: string, group: string, key: string)
    requires '/' !in group
    ensures ParsePath(basePath, basePath + group + "/" + key) == Target(group, key)
  {
    var path := basePath + group + "/" + key;
    assert path[..|basePath|] == basePath;
    var rest := path[|basePath|..];
    assert rest == group + "/" + key;
    var parts := SplitN2(rest, '/');
    assert rest[|group|] == '/';
    assert |parts| == 2;
    assert parts[0] + "/" + parts[1] == group + "/" + key;
    PlainPrefixCut(parts[0], parts[1], group, key);
  }

  /** Two cuts of the same text at a first `/` are the same cut. */
  lemma PlainPrefixCut(a: string, b: string, c: string, d: string)
    requires '/' !in a && '/' !in c
    requires a + "/" + b == c + "/" + d
    ensures a == c && b == d
  {
    var t := a + "/" + b;
    FirstSlash(a, b);
    FirstSlash(c, d);
    if |a| < |c| {
      assert false;
    } else if |c| < |a| {
      assert false;
    }
    assert a == t[..|a|] && c == t[..|c|];
    assert b == t[|a| + 1..] && d == t[|c| + 1..];
  }

  /** In a + "/" + b with no `/` in `a`, the first `/` is at |a|. */
  lemma FirstSlash(a: string, b: string)
    requires '/' !in a
    ensures (a + "/" + b)[|a|] == '/'
    ensures forall i :: 0 <= i < |a| ==> (a + "/" + b)[i] != '/'
  {
    assert forall i :: 0 <= i < |a| ==> (a + "/" + b)[i] == a[i];
  }

  /** A hex digit in either case, as net/url accepts it after a `%`. */
  predicate IsHex(c: char) {
    ('0' <= c <= '9') || ('a' <= c <= 'f') || ('A' <= c <= 'F')
  }

  function HexValue(c: char): (d: nat)
    requires IsHex(c)
    ensures d < 16
  {
    if '0' <= c <= '9' then c as int - '0' as int
    else if 'a' <= c <= 'f' then c as int - 'a' as int + 10
    else c as int - 'A' as int + 10
  }

  /**
   * How net/url undoes the escapes of a request path: `%XX` is the byte XX,
   * any other character its own UTF-8 bytes (a `+` stays a `+` in a path);
   * a `%` without two hex digits after it is malformed.
   */
  function PathUnescape(s: string): (r: Option<seq<byte>>)
    decreases |s|
  {
    if s == [] then Some([])
    else if s[0] == '%' then
      if |s| < 3 || !IsHex(s[1]) || !IsHex(s[2]) then None
      else
        match PathUnescape(s[3..])
        case None => None
        case Some(rest) => Some([(HexValue(s[1]) * 16 + HexValue(s[2])) as byte] + rest)
    else
      match PathUnescape(s[1..])
      case None => None
      case Some(rest) => Some(EncodeChar(s[0]) + rest)
  }

  /**
   * `r.URL.Path` for a requested path: its escapes undone and the bytes read
   * as text. A malformed escape gives None; net/http answers such a request
   * itself, before any handler runs.
   */
  function RequestPath(escaped: string): Option<string> {
    match PathUnescape(escaped)
    case None => None
    case Some(bs) => Some(Decode(bs))
  }

  /** A path segment escape that writes the space as `%20`, as url.PathEscape does; every other byte as url.QueryEscape writes it. */
  function SegmentEscapeByte(b: byte): string {
    if b == 0x20 then "%20" else EscapeByte(b)
  }

  function SegmentEscapeBytes(bs: seq<byte>): string
    decreases |bs|
  {
    if bs == [] then "" else SegmentEscapeByte(bs[0]) + SegmentEscapeBytes(bs[1..])
  }

  function SegmentEscape(s: string): string {
    SegmentEscapeBytes(Encode(s))
  }

  lemma HexDigitValue(d: nat)
    requires d < 16
    ensures IsHex(HexDigit(d)) && HexValue(HexDigit(d)) == d
  {
  }

  /** Undoing the escape of one byte, ahead of text that unescapes, gives that byte first. */
  lemma UnescapeSegmentByte(b: byte, u: string)
    requires PathUnescape(u).Some?
    ensures PathUnescape(SegmentEscapeByte(b) + u) == Some([b] + PathUnescape(u).value)
  {
    var e := SegmentEscapeByte(b);
    var t := e + u;
    if Unreserved(b) {
      assert t[0] == b as int as char && t[1..] == u;
    } else {
      var hi, lo := b as int / 16, b as int % 16;
      HexDigitValue(hi);
      HexDigitValue(lo);
      assert e == ['%', HexDigit(hi), HexDigit(lo)];
      assert t[0] == '%' && t[1] == HexDigit(hi) && t[2] == HexDigit(lo) && t[3..] == u;
    }
  }

  lemma {:induction false} UnescapeSegmentBytes(bs: seq<byte>, u: string)
    requires PathUnescape(u).Some?
    ensures PathUnescape(SegmentEscapeBytes(bs) + u) == Some(bs + PathUnescape(u).value)
    decreases |bs|
  {
    if bs != [] {
      var head, rest, v := SegmentEscapeByte(bs[0]), SegmentEscapeBytes(bs[1..]), PathUnescape(u).value;
      UnescapeSegmentBytes(bs[1..], u);
      UnescapeSegmentByte(bs[0], rest + u);
      assert SegmentEscapeBytes(bs) == head + rest;
      assert head + rest + u == head + (rest + u);
      ConsAppend(bs, v);
    } else {
      assert SegmentEscapeBytes(bs) + u == u && bs + PathUnescape(u).value == PathUnescape(u).value;
    }
  }

  /** The first byte put back in front of the rest, ahead of more bytes. */
  lemma ConsAppend(bs: seq<byte>, v: seq<byte>)
    requires bs != []
    ensures [bs[0]] + (bs[1..] + v) == bs + v
  {
    assert bs == [bs[0]] + bs[1..];
  }

  /** Text without `%` unescapes to its own UTF-8 bytes. */
  lemma {:induction false} UnescapePlain(p: string, u: string)
    requires '%' !in p && PathUnescape(u).Some?
    ensures PathUnescape(p + u) == Some(Encode(p) + PathUnescape(u).value)
    decreases |p|
  {
    if p != [] {
      var t := p + u;
      assert t[0] == p[0] && t[1..] == p[1..] + u;
      assert '%' !in p[1..] by {
        assert forall c :: c in p[1..] ==> c in p;
      }
      UnescapePlain(p[1..], u);
      assert EncodeChar(p[0]) + (Encode(p[1..]) + PathUnescape(u).value) == Encode(p) + PathUnescape(u).value;
    } else {
      assert p + u == u && Encode(p) + PathUnescape(u).value == PathUnescape(u).value;
    }
  }

  lemma {:induction false} EncodeAppend(a: string, b: string)
    ensures Encode(a + b) == Encode(a) + Encode(b)
    decreases |a|
  {
    if a != [] {
      assert (a + b)[0] == a[0] && (a + b)[1..] == a[1..] + b;
      EncodeAppend(a[1..], b);
    } else {
      assert a + b == b;
    }
  }

  /** Only the space itself encodes to a 0x20 byte. */
  lemma {:induction false} NoSpaceByte(s: string)
    requires ' ' !in s
    ensures 0x20 !in Encode(s)
    decreases |s|
  {
    if s != [] {
      assert ' ' !in s[1..] by {
        assert forall c :: c in s[1..] ==> c in s;
      }
      NoSpaceByte(s[1..]);
      var e := EncodeChar(s[0]);
      assert forall i :: 0 <= i < |e| ==> e[i] != 0x20;
    }
  }

  /** Without space bytes, url.QueryEscape and the segment escape write the same text. */
  lemma {:induction false} QueryEscapeIsSegmentEscape(bs: seq<byte>)
    requires 0x20 !in bs
    ensures EscapeBytes(bs) == SegmentEscapeBytes(bs)
    decreases |bs|
  {
    if bs != [] {
      assert 0x20 !in bs[1..] by {
        assert forall b :: b in bs[1..] ==> b in bs;
      }
      QueryEscapeIsSegmentEscape(bs[1..]);
    }
  }

  /**
   * With every byte written as the segment escape writes it, the serving pool
   * reads the requested path as base + group + "/" + key and, for a group
   * without '/', cuts it back into that group and key.
   */
  lemma ServerReadsSegmentEscapedPath(group: string, key: string)
    requires '/' !in group
    ensures RequestPath(DefaultBasePath + SegmentEscape(group) + "/" + SegmentEscape(key))
            == Some(DefaultBasePath + group + "/" + key)
    ensures ParsePath(DefaultBasePath, DefaultBasePath + group + "/" + key) == Target(group, key)
  {
    UnescapeSegmentEscapedPath(DefaultBasePath, group, key);
    EncodeJoined(DefaultBasePath, group, key);
    DecodeEncode(DefaultBasePath + group + "/" + key);
    ParseBuiltPath(DefaultBasePath, group, key);
  }

  /** The bytes the server gets back from a '/' followed by a segment-escaped key. */
  lemma UnescapeSlashKey(key: string)
    ensures PathUnescape("/" + SegmentEscape(key)) == Some([0x2F] + Encode(key))
  {
    var k, ek := Encode(key), SegmentEscape(key);
    assert PathUnescape("") == Some([]);
    UnescapeSegmentBytes(k, "");
    assert SegmentEscapeBytes(k) + "" == ek && k + [] == k;
    UnescapePlain("/", ek);
    assert Encode("/") == [0x2F];
  }

  /** The bytes the server gets back from a segment-escaped path under a base without `%`. */
  lemma UnescapeSegmentEscapedPath(base: string, group: string, key: string)
    requires '%' !in base
    ensures PathUnescape(base + SegmentEscape(group) + "/" + SegmentEscape(key))
            == Some(Encode(base) + (Encode(group) + ([0x2F] + Encode(key))))
  {
    var eg, ek := SegmentEscape(group), SegmentEscape(key);
    UnescapeSlashKey(key);
    UnescapeSegmentBytes(Encode(group), "/" + ek);
    UnescapePlain(base, eg + ("/" + ek));
    SlashJoin(base, eg, ek);
  }

  /** A path joined with one '/' regrouped from the right. */
  lemma SlashJoin(base: string, a: string, b: string)
    ensures base + a + "/" + b == base + (a + ("/" + b))
  {
  }

  lemma EncodeJoined(base: string, group: string, key: string)
    ensures Encode(base + group + "/" + key) == Encode(base) + (Encode(group) + ([0x2F] + Encode(key)))
  {
    var slash := Encode("/");
    assert slash == [0x2F] by {
      assert "/"[1..] == [];
    }
    var gs := group + "/";
    EncodeAppend(group, "/");
    EncodeAppend(gs, key);
    EncodeAppend(base, gs + key);
    assert base + group + "/" + key == base + (gs + key);
    assert Encode(gs + key) == Encode(group) + ([0x2F] + Encode(key));
  }

  /**
   * The path a peer getter requests (http.go:33-34), read by the serving pool,
   * gives back the group and key when neither holds a space and the group
   * holds no '/'.
   */
  lemma ServerReadsRequestedPath(group: string, key: string)
    requires '/' !in group && ' ' !in group && ' ' !in key
    ensures RequestPath(DefaultBasePath + QueryEscape(group) + "/" + QueryEscape(key))
            == Some(DefaultBasePath + group + "/" + key)
    ensures ParsePath(DefaultBasePath, DefaultBasePath + group + "/" + key) == Target(group, key)
  {
    NoSpaceByte(group);
    NoSpaceByte(key);
    QueryEscapeIsSegmentEscape(Encode(group));
    QueryEscapeIsSegmentEscape(Encode(key));
    ServerReadsSegmentEscapedPath(group, key);
  }

  /**
   * url.QueryEscape writes a space as `+`, which a path keeps: the key "a b"
   * of group "g" reaches the serving pool as "a+b".
   */
  lemma KeyWithSpaceArrivesWithPlus()
    ensures QueryEscape("a b") == "a+b"
    ensures RequestPath(DefaultBasePath + QueryEscape("g") + "/" + QueryEscape("a b"))
            == Some(DefaultBasePath + "g/a+b")
    ensures ParsePath(DefaultBasePath, DefaultBasePath + "g/a+b") == Target("g", "a+b")
  {
    assert Encode("a b") == [0x61, 0x20, 0x62];
    assert Encode("g") == [0x67];
    assert EscapeBytes([0x62]) == "b";
    assert EscapeBytes([0x20, 0x62]) == "+b";
    assert QueryEscape("a b") == "a+b";
    assert QueryEscape("g") == "g";
    var x := DefaultBasePath + "g/a+b";
    assert x == "/_geecache/g/a+b";
    assert '%' !in x;
    assert PathUnescape("") == Some([]);
    UnescapePlain(x, "");
    assert x + "" == x && Encode(x) + [] == Encode(x);
    assert DefaultBasePath + QueryEscape("g") + "/" + QueryEscape("a b") == x;
    DecodeEncode(x);
    assert DefaultBasePath + "g/a+b" == DefaultBasePath + "g" + "/" + "a+b";
    ParseBuiltPath(DefaultBasePath, "g", "a+b");
  }

  /** The outcome of the `http.Get` a peer getter issues. */
  datatype HttpReply = TransportError(err: string) | Reply(statusCode: int, status: string, body: Result<seq<byte>>)

  /** What a handler writes: status code, content type and body. */
  datatype Response = Response(status: int, contentType: string, body: seq<byte>)

  /** http.Error: a plain-text body holding the message and a newline. */
  function ErrorResponse(code: int, msg: string): Response {
    Response(code, "text/plain; charset=utf-8", Encode(msg + "\n"))
  }

  class HttpGetter {
    var basePath: string

    constructor (basePath: string)
      ensures this.basePath == basePath
    {
      this.basePath := basePath;
    }

    /**
     * HttpGetter.Get: make sure the base path ends in `/` (keeping the change),
     * request base + escaped group + "/" + escaped key, and turn a transport
     * error, a status other than 200 or a failed body read into an error
     * (http.go:26-51).
     */
    method Get(group: string, key: string, reply: HttpReply) returns (url: string, r: Result<seq<byte>>)
      modifies this
      ensures basePath == if HasSuffix(old(basePath), "/") then old(basePath) else old(basePath) + "/"
      ensures HasSuffix(basePath, "/")
      ensures url == basePath + QueryEscape(group) + "/" + QueryEscape(key)
      ensures reply.TransportError? ==> r == Err(reply.err)
      ensures reply.Reply? && reply.statusCode != 200 ==> r == Err("server returned: " + reply.status)
      ensures reply.Reply? && reply.statusCode == 200 ==>
                r == match reply.body
                     case Ok(data) => Ok(data)
                     case Err(e) => Err("reading response body: " + e)
    {
      if !HasSuffix(basePath, "/") {
        basePath := basePath + "/";
      }
      url := basePath + QueryEscape(group) + "/" + QueryEscape(key);
      match reply {
        case TransportError(e) =>
          r := Err(e);
        case Reply(code, status, body) =>
          if code != 200 {
            r := Err("server returned: " + status);
          } else if body.Err? {
            r := Err("reading response body: " + body.msg);
          } else {
            r := Ok(body.value);
          }
      }
    }
  }

  /** The addresses in a peer list, as a set. */
  ghost function PeerSet(list: seq<string>): set<string>
    decreases |list|
  {
    if list == [] then {} else PeerSet(list[..|list| - 1]) + {list[|list| - 1]}
  }

  lemma {:induction false} PeerSetElements(list: seq<string>)
    ensures PeerSet(list) == set k | 0 <= k < |list| :: list[k]
    decreases |list|
  {
    if list != [] {
      var init := list[..|list| - 1];
      PeerSetElements(init);
      assert (set k | 0 <= k < |list| :: list[k]) == (set k | 0 <= k < |init| :: init[k]) + {list[|list| - 1]};
    }
  }

  /** One fresh getter per peer, whose base path is the peer's address + "/_geecache/". */
  method NewGetters(list: seq<string>) returns (getters: map<string, HttpGetter>)
    ensures getters.Keys == PeerSet(list)
    ensures forall p :: p in getters ==> fresh(getters[p]) && getters[p].basePath == p + DefaultBasePath
  {
    getters := map[];
    var i := 0;
    while i < |list|
      invariant 0 <= i <= |list|
      invariant getters.Keys == PeerSet(list[..i])
      invariant forall p :: p in getters ==> fresh(getters[p]) && getters[p].basePath == p + DefaultBasePath
    {
      var g := new HttpGetter(list[i] + DefaultBasePath);
      getters := getters[list[i] := g];
      assert list[..i + 1][..i] == list[..i];
      i := i + 1;
    }
    assert list[..i] == list;
  }

  class HttpPool {
    const self: string
    const basePath: string
    var peers: Map?
    var httpGetter: map<string, HttpGetter>

    /** The ring, when set, is a valid 50-replica CRC-32 ring over exactly the peers that have getters. */
    ghost predicate Valid()
      reads this, peers
    {
      peers != null ==>
        && peers.Valid()
        && peers.replicas == DefaultReplicas
        && peers.nodes == httpGetter.Keys
    }

    /** NewHttpPool: a pool for `addr` serving under "/_geecache/" with no peers yet (http.go:66-71). */
    constructor (addr: string)
      ensures Valid()
      ensures self == addr && basePath == DefaultBasePath && peers == null && httpGetter == map[]
    {
      self := addr;
      basePath := DefaultBasePath;
      peers := null;
      httpGetter := map[];
    }

    /**
     * HttpPool.Set: a new 50-replica CRC-32 ring over exactly `list`, and a
     * getter for each peer whose base path is peer + "/_geecache/" (http.go:77-86).
     */
    method Set(list: seq<string>)
      modifies this
      ensures Valid()
      ensures peers != null && fresh(peers) && peers.Valid()
      ensures peers.hash == ChecksumIeee && peers.replicas == DefaultReplicas
      ensures multiset(peers.keys) == multiset(RingPoints(ChecksumIeee, DefaultReplicas, list, |list|))
      ensures peers.hashmap == Assigned(ChecksumIeee, DefaultReplicas, map[], list, |list|)
      ensures httpGetter.Keys == PeerSet(list)
      ensures forall p :: p in httpGetter ==> fresh(httpGetter[p]) && httpGetter[p].basePath == p + DefaultBasePath
    {
      httpGetter := NewGetters(list);
      peers := new Map(DefaultReplicas, None);
      peers.Add(list);
      PeerSetElements(list);
    }

    /**
     * HttpPool.PickPeer: the getter of the ring's choice for `key`, unless the
     * choice is empty or the pool itself (http.go:88-96). A non-empty key
     * before any peer is set, or on an empty ring, crashes in Go and is excluded.
     */
    function PickPeer(key: string): (r: Option<HttpGetter>)
      reads this, peers
      requires Valid()
      requires key == "" || (peers != null && peers.keys != [])
      ensures r.Some? <==> peers != null && peers.Get(key) != "" && peers.Get(key) != self
      ensures r.Some? ==> peers.Get(key) in httpGetter && r.value == httpGetter[peers.Get(key)]
    {
      var chosen := if peers == null then "" else peers.Get(key);
      if chosen != "" && chosen != self then Some(httpGetter[chosen]) else None
    }

    /**
     * HttpPool.ServeHTTP: parse the path, find the group, get the key and
     * write its bytes; 400, 404 and 500 for a bad path, an unknown group and a
     * failed lookup. A path outside the base path aborts (http.go:98-126).
     * `path` is `r.URL.Path`, the request path as RequestPath reads it;
     * `answer` is what the group's `Get` returned.
     */
    method ServeHTTP(reg: Registry, path: string, peer: PeerAnswer) returns (resp: Result<Response>, ghost answer: Result<ByteView>)
      requires forall name :: name in reg.groups ==> reg.groups[name].Valid()
      modifies reg.groups.Values
      ensures ParsePath(basePath, path).Unexpected? ==> resp == Err("HTTPPool serving unexpected path: " + path)
      ensures ParsePath(basePath, path).BadRequest? ==> resp == Ok(ErrorResponse(400, "bad request"))
      ensures ParsePath(basePath, path).Target? ==>
                var t := ParsePath(basePath, path);
                && (t.group !in reg.groups ==> resp == Ok(ErrorResponse(404, "no such group")))
                && (t.group in reg.groups ==>
                      && (answer.Err? ==> resp == Ok(ErrorResponse(500, answer.msg)))
                      && (answer.Ok? ==> resp == Ok(Response(200, "application/octet-stream", answer.value.b)))
                      && (t.key == "" ==> answer == Err("key is required"))
                      && (t.key != "" && t.key in old(reg.groups[t.group].mainCache) ==>
                            answer == Ok(old(reg.groups[t.group].mainCache)[t.key]))
                      && (t.key != "" && t.key !in old(reg.groups[t.group].mainCache) ==>
                            reg.groups[t.group].Loaded(t.key, peer, answer)))
    {
      answer := Err("");
      var t := ParsePath(basePath, path);
      match t {
        case Unexpected =>
          resp := Err("HTTPPool serving unexpected path: " + path);
        case BadRequest =>
          resp := Ok(ErrorResponse(400, "bad request"));
        case Target(groupName, key) =>
          var g := reg.GetGroup(groupName);
          if g.None? {
            resp := Ok(ErrorResponse(404, "no such group"));
          } else {
            var got := g.value.Get(key, peer);
            answer := got;
            if got.Err? {
              resp := Ok(ErrorResponse(500, got.msg));
            } else {
              var data := got.value.ByteSlice();
              resp := Ok(Response(200, "application/octet-stream", data[..]));
            }
          }
      }
    }
  }
}
