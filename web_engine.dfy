/**
 * The engine of gee/gee.go: its own route table of "METHOD-pattern" keys,
 * registration for GET and POST, and the dispatch of ServeHTTP, which on a
 * miss writes "404 NOT FOUND!" without setting a status (so the response
 * goes out as 200). Handlers are opaque values of type H.
 */
module WebEngine {
  import opened Wrappers
  import opened WebContext
  import opened GoFmt
  import opened WebRouter

  /** What ServeHTTP does with a request: run a handler, or write the not-found text. */
  datatype Dispatch<H> = Run(handler: H) | NotFound(body: string)

  class Engine<H> {
    var router: map<string, H>

    /** New: an empty route table (gee.go:41-43). */
    constructor ()
      ensures router == map[]
    {
      router := map[];
    }

    /** Engine.addRouter: file the handler under method-pattern, replacing an earlier one (gee.go:24-26). */
    method AddRouter(verb: string, pattern: string, f: H)
      modifies this
      ensures router == old(router)[RouteKey(verb, pattern) := f]
    {
      router := router[RouteKey(verb, pattern) := f];
    }

    /** Engine.GET: register under "GET-" + pattern (gee.go:28-30). */
    method Get(pattern: string, f: H)
      modifies this
      ensures router == old(router)[RouteKey("GET", pattern) := f]
      ensures ServeHTTP("GET", pattern) == Run(f)
    {
      AddRouter("GET", pattern, f);
    }

    /** Engine.POST: register under "POST-" + pattern (gee.go:32-34). */
    method Post(pattern: string, f: H)
      modifies this
      ensures router == old(router)[RouteKey("POST", pattern) := f]
      ensures ServeHTTP("POST", pattern) == Run(f)
    {
      AddRouter("POST", pattern, f);
    }

    /** Engine.ServeHTTP: the handler under the exact method-path key, else the text "404 NOT FOUND!" (gee.go:15-22). */
    function ServeHTTP(verb: string, path: string): (d: Dispatch<H>)
      reads this
      ensures d.Run? <==> RouteKey(verb, path) in router
      ensures d.Run? ==> d.handler == router[RouteKey(verb, path)]
      ensures d.NotFound? ==> d.body == "404 NOT FOUND!"
    {
      var key := RouteKey(verb, path);
      if key in router then Run(router[key])
      else
        SprintfPlain("404 NOT FOUND!");
        NotFound(Sprintf("404 NOT FOUND!", []))
    }
  }

  /** Registering GET routes never changes what POST requests reach, and the other way round. */
  lemma GetLeavesPostRoutes<H>(routes: map<string, H>, p: string, f: H, q: string)
    ensures var after := routes[RouteKey("GET", p) := f];
            (RouteKey("POST", q) in after <==> RouteKey("POST", q) in routes)
            && (RouteKey("POST", q) in routes ==> after[RouteKey("POST", q)] == routes[RouteKey("POST", q)])
  {
    GetPostDistinct(p, q);
  }
}
