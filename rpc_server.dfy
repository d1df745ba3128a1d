/**
 * The server side of geerpc/server.go: the service table, `Service.Method`
 * resolution, the handshake check, the request-reading loop and the HTTP
 * CONNECT gate. Reflection over the receiver (`newService`) and the codecs
 * are not part of this model: a service is its name and its method names,
 * and what a codec reads from the connection arrives as a sequence of frames.
 */
module RpcServer {
  import opened Wrappers
  import opened GoStrings

  const MagicNumber: int := 0x3bef5c
  const Second: int := 1_000_000_000

  /** The identifier of the gob codec (its text lives in geerpc/codec). */
  const GobType: string := "application/gob"

  /** Option: the handshake a client sends once per connection. */
  datatype RpcOption = RpcOption(magicNumber: int, codecType: string, connectTimeout: int, handleTimeout: int)

  /** DefaultOption: the magic number, the gob codec, a 5 s connect timeout, no handle timeout (server.go:28-32). */
  const DefaultOption: RpcOption := RpcOption(MagicNumber, GobType, 5 * Second, 0)

  const Connected: string := "200 Connected to Gee RPC"
  const DefaultRpcPath: string := "/_rpc"

  /** A registered service: its name and the names of its exported methods. */
  datatype Service = Service(name: string, methods: set<string>)

  /** codec.Header: the method called, the call's sequence number and an error text. */
  datatype Header = Header(serviceMethod: string, seqNo: nat, error: string)

  /**
   * findService: cut at the last `.` into service and method, then look both
   * up; the three failures have their own messages (server.go:68-86).
   */
  function FindService(serviceMap: map<string, Service>, serviceMethod: string): (r: Result<(Service, string)>)
    requires FiledByName(serviceMap)
    ensures '.' !in serviceMethod ==> r == Err("rpc server: service/method request ill-formed: " + serviceMethod)
    ensures r.Ok? ==>
              && serviceMethod == r.value.0.name + "." + r.value.1
              && '.' !in r.value.1
              && r.value.0.name in serviceMap && serviceMap[r.value.0.name] == r.value.0
              && r.value.1 in r.value.0.methods
    ensures '.' in serviceMethod && r.Err? ==>
              var dot := LastIndex(serviceMethod, '.');
              var serviceName, methodName := serviceMethod[..dot], serviceMethod[dot + 1..];
              r.msg == if serviceName !in serviceMap then "rpc server: can't find service " + serviceName
                       else "rpc server: can't find method " + methodName
    ensures '.' in serviceMethod ==>
              var dot := LastIndex(serviceMethod, '.');
              var serviceName, methodName := serviceMethod[..dot], serviceMethod[dot + 1..];
              (r.Ok? <==> serviceName in serviceMap && methodName in serviceMap[serviceName].methods)
  {
    var dot := LastIndex(serviceMethod, '.');
    if dot < 0 then Err("rpc server: service/method request ill-formed: " + serviceMethod)
    else
      var serviceName, methodName := serviceMethod[..dot], serviceMethod[dot + 1..];
      if serviceName !in serviceMap then Err("rpc server: can't find service " + serviceName)
      else
        var svc := serviceMap[serviceName];
        if methodName !in svc.methods then Err("rpc server: can't find method " + methodName)
        else
          assert serviceMethod == serviceName + "." + methodName;
          Ok((svc, methodName))
  }

  /** Every service is filed under its own name, as Register files them. */
  ghost predicate FiledByName(serviceMap: map<string, Service>) {
    forall name :: name in serviceMap ==> serviceMap[name].name == name
  }

  /** In s + "." + m with no `.` in m, the last `.` is at |s|. */
  lemma {:induction false} LastDot(s: string, m: string)
    requires '.' !in m
    ensures LastIndex(s + "." + m, '.') == |s|
    decreases |m|
  {
    var sm := s + "." + m;
    if m != [] {
      var init := m[..|m| - 1];
      assert sm[..|sm| - 1] == s + "." + init;
      assert sm[|sm| - 1] == m[|m| - 1];
      LastDot(s, init);
    }
  }

  /**
   * Any registered service and method, written "Service.Method", resolve back
   * to that service and method; a service name may itself contain dots
   * ("A.B.C" is method "C" of service "A.B").
   */
  lemma ResolveQualified(serviceMap: map<string, Service>, serviceName: string, methodName: string)
    requires FiledByName(serviceMap)
    requires serviceName in serviceMap && methodName in serviceMap[serviceName].methods
    requires '.' !in methodName
    ensures FindService(serviceMap, serviceName + "." + methodName) == Ok((serviceMap[serviceName], methodName))
  {
    var sm := serviceName + "." + methodName;
    LastDot(serviceName, methodName);
    assert sm[..|serviceName|] == serviceName;
    assert sm[|serviceName| + 1..] == methodName;
  }

  /** What the server gets out of the handshake bytes: nothing readable, or an option. */
  datatype Handshake = Unreadable | Decoded(opt: RpcOption)

  /**
   * The checks of ServeConn: an unreadable option, a wrong magic number or a
   * codec type without a constructor drop the connection without a word;
   * otherwise requests are served with the chosen codec and the option's
   * handle timeout (server.go:127-160).
   */
  function AcceptOption(h: Handshake, codecs: set<string>): (r: Option<(string, int)>)
    ensures r.Some? <==> h.Decoded? && h.opt.magicNumber == MagicNumber && h.opt.codecType in codecs
    ensures r.Some? ==> r.value == (h.opt.codecType, h.opt.handleTimeout)
  {
    match h
    case Unreadable => None
    case Decoded(opt) =>
      if opt.magicNumber != DefaultOption.magicNumber then None
      else if opt.codecType !in codecs then None
      else Some((opt.codecType, opt.handleTimeout))
  }

  /** The default option passes the check of a server that has the gob codec. */
  lemma DefaultOptionAccepted(codecs: set<string>)
    requires GobType in codecs
    ensures AcceptOption(Decoded(DefaultOption), codecs) == Some((GobType, 0))
  {
  }

  /** What the codec reads for one request: a failed header read, or a header whose body read succeeded or not. */
  datatype Frame = HeaderFailed(err: string) | Frame(header: Header, bodyOk: bool)

  /** A request ready to be handled: its header, service and method. */
  datatype Request = Request(header: Header, svc: Service, methodName: string)

  /**
   * readRequest: a failed header read and an unresolvable method both give
   * no request and an error; a failed body read is only logged, so the
   * request is still returned (server.go:221-247).
   */
  function ReadRequest(serviceMap: map<string, Service>, f: Frame): (r: (Option<Request>, Option<string>))
    requires FiledByName(serviceMap)
    ensures r.1.Some? ==> r.0.None?
    ensures r.0.Some? <==> r.1.None?
    ensures f.HeaderFailed? ==> r == (None, Some(f.err))
  {
    match f
    case HeaderFailed(e) => (None, Some(e))
    case Frame(h, _) =>
      match FindService(serviceMap, h.serviceMethod)
      case Err(e) => (None, Some(e))
      case Ok(found) => (Some(Request(h, found.0, found.1)), None)
  }

  /**
   * A frame whose header was read is refused exactly when its method does not
   * resolve, with findService's message; a resolved one becomes a request for
   * the service and method found, whatever became of its body.
   */
  lemma ReadRequestResolves(serviceMap: map<string, Service>, h: Header, bodyOk: bool)
    requires FiledByName(serviceMap)
    ensures var r := ReadRequest(serviceMap, Frame(h, bodyOk));
            var found := FindService(serviceMap, h.serviceMethod);
            && (found.Err? ==> r == (None, Some(found.msg)))
            && (found.Ok? ==> r.0 == Some(Request(h, found.value.0, found.value.1)) && r.0.value.svc.name + "." + r.0.value.methodName == h.serviceMethod)
  {
  }

  /** The requests serveCodec dispatches from `frames`: those read before the first failure. */
  function Served(serviceMap: map<string, Service>, frames: seq<Frame>): (reqs: seq<Request>)
    requires FiledByName(serviceMap)
    ensures |reqs| <= |frames|
    decreases |frames|
  {
    if frames == [] then []
    else
      var (req, err) := ReadRequest(serviceMap, frames[0]);
      if err.Some? then [] else [req.value] + Served(serviceMap, frames[1..])
  }

  /** The dispatched requests are, in order, the requests of the first frames. */
  lemma {:induction false} ServedPrefix(serviceMap: map<string, Service>, frames: seq<Frame>, i: nat)
    requires FiledByName(serviceMap)
    requires i < |Served(serviceMap, frames)|
    ensures ReadRequest(serviceMap, frames[i]) == (Some(Served(serviceMap, frames)[i]), None)
    decreases i
  {
    var first := ReadRequest(serviceMap, frames[0]);
    var rest := Served(serviceMap, frames[1..]);
    assert Served(serviceMap, frames) == [first.0.value] + rest;
    if i > 0 {
      ServedPrefix(serviceMap, frames[1..], i - 1);
      assert frames[i] == frames[1..][i - 1];
    }
  }

  /** The frame after the dispatched ones, if the stream has one, is a frame readRequest refuses. */
  lemma {:induction false} ServedStopsAtRefusal(serviceMap: map<string, Service>, frames: seq<Frame>)
    requires FiledByName(serviceMap)
    ensures var reqs := Served(serviceMap, frames);
            |reqs| < |frames| ==> ReadRequest(serviceMap, frames[|reqs|]).1.Some?
    decreases |frames|
  {
    if frames != [] {
      var first := ReadRequest(serviceMap, frames[0]);
      if first.1.None? {
        var rest := Served(serviceMap, frames[1..]);
        ServedStopsAtRefusal(serviceMap, frames[1..]);
        assert Served(serviceMap, frames) == [first.0.value] + rest;
        if |rest| < |frames[1..]| {
          assert frames[|rest| + 1] == frames[1..][|rest|];
        }
      }
    }
  }

  lemma ServedUnfold(serviceMap: map<string, Service>, frames: seq<Frame>, i: nat)
    requires FiledByName(serviceMap)
    requires i < |frames| && ReadRequest(serviceMap, frames[i]).1.None?
    ensures Served(serviceMap, frames[i..]) == [ReadRequest(serviceMap, frames[i]).0.value] + Served(serviceMap, frames[i + 1..])
  {
    assert frames[i..][1..] == frames[i + 1..];
  }

  lemma ServedStops(serviceMap: map<string, Service>, frames: seq<Frame>, i: nat)
    requires FiledByName(serviceMap)
    requires i <= |frames|
    requires i < |frames| ==> ReadRequest(serviceMap, frames[i]).1.Some?
    ensures Served(serviceMap, frames[i..]) == []
  {
  }

  /** What ServeHTTP does with a request: refuse it, or take over the connection after the preamble. */
  datatype HttpAnswer = Refuse(status: int, contentType: string, body: string) | Hijack(preamble: string)

  /**
   * Server.ServeHTTP: anything but CONNECT gets 405 and "405 must CONNECT";
   * CONNECT gets "HTTP/1.0 200 Connected to Gee RPC" and a blank line, then
   * the connection is served (server.go:101-115).
   */
  function ServeHttp(verb: string): (a: HttpAnswer)
    ensures a.Hijack? <==> verb == "CONNECT"
    ensures a.Refuse? ==> a == Refuse(405, "text/plain; charset=utf-8", "405 must CONNECT\n")
    ensures a.Hijack? ==> a.preamble == "HTTP/1.0 " + Connected + "\n\n"
  {
    if verb != "CONNECT" then Refuse(405, "text/plain; charset=utf-8", "405 must CONNECT\n")
    else Hijack("HTTP/1.0 " + Connected + "\n\n")
  }

  class Server {
    var serviceMap: map<string, Service>

    /** Every service is filed under its own name. */
    ghost predicate Valid()
      reads this
    {
      FiledByName(serviceMap)
    }

    /** NewServer: no services (server.go:54-56). */
    constructor ()
      ensures Valid() && serviceMap == map[]
    {
      serviceMap := map[];
    }

    /**
     * Server.Register: a name already taken is an error and keeps the first
     * service; otherwise the service is stored under its name (server.go:60-66).
     */
    method Register(svc: Service) returns (err: Option<string>)
      requires Valid()
      modifies this
      ensures Valid()
      ensures svc.name in old(serviceMap) ==>
                err == Some("rpc: service already defined: " + svc.name) && serviceMap == old(serviceMap)
      ensures svc.name !in old(serviceMap) ==> err == None && serviceMap == old(serviceMap)[svc.name := svc]
    {
      if svc.name in serviceMap {
        return Some("rpc: service already defined: " + svc.name);
      }
      serviceMap := serviceMap[svc.name := svc];
      err := None;
    }

    /**
     * serveCodec's loop: read requests and hand each to a handler until a
     * read fails; since readRequest never returns a request together with an
     * error, the loop always leaves without writing an error response
     * (server.go:162-180). A stream that runs out reads as EOF.
     */
    method ServeCodec(frames: seq<Frame>) returns (dispatched: seq<Request>, errorResponses: nat)
      requires Valid()
      ensures dispatched == Served(serviceMap, frames)
      ensures errorResponses == 0
    {
      dispatched, errorResponses := [], 0;
      var i := 0;
      while true
        invariant 0 <= i <= |frames|
        invariant dispatched + Served(serviceMap, frames[i..]) == Served(serviceMap, frames)
        invariant errorResponses == 0
        decreases |frames| - i
      {
        var f := if i < |frames| then frames[i] else HeaderFailed("EOF");
        var read := ReadRequest(serviceMap, f);
        var req, err := read.0, read.1;
        if err.Some? {
          // an error response is written only when a request came back with the error
          errorResponses := errorResponses + if req.Some? then 1 else 0;
          break;
        }
        ServedUnfold(serviceMap, frames, i);
        dispatched := dispatched + [req.value];
        i := i + 1;
      }
      ServedStops(serviceMap, frames, i);
    }
  }
}
