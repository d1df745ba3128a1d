/**
 * The route table of gee/router.go: handlers filed under "METHOD-pattern"
 * and found by exact match on the request's method and path; a miss is
 * answered on the context with 404. Handlers are opaque values of type H;
 * `Handle` returns the one to run instead of running it.
 */
module WebRouter {
  import opened Wrappers
  import opened WebContext
  import opened GoFmt

  /** The table key of a method and a pattern. */
  function RouteKey(verb: string, pattern: string): string {
    verb + "-" + pattern
  }

  /** Two keys for the same method are equal only for the same pattern. */
  lemma RouteKeySameMethod(verb: string, p: string, q: string)
    requires RouteKey(verb, p) == RouteKey(verb, q)
    ensures p == q
  {
    assert p == RouteKey(verb, p)[|verb| + 1..];
  }

  /** GET and POST routes never share a key. */
  lemma GetPostDistinct(p: string, q: string)
    ensures RouteKey("GET", p) != RouteKey("POST", q)
  {
    assert RouteKey("GET", p)[0] == 'G' && RouteKey("POST", q)[0] == 'P';
  }

  const NotFoundFormat: string := "Page %v Not Found!"

  /** The not-found format puts the path between "Page " and " Not Found!". */
  lemma NotFoundText(path: string)
    ensures Sprintf(NotFoundFormat, [path]) == "Page " + path + " Not Found!"
  {
    SprintfOneOperand("Page ", " Not Found!", path);
    assert "Page " + "%v" + " Not Found!" == NotFoundFormat;
  }

  class Router<H> {
    var handler: map<string, H>

    /** newRouter: an empty table (router.go:9-13). */
    constructor ()
      ensures handler == map[]
    {
      handler := map[];
    }

    /** router.addRouter: the handler is filed under method-pattern, replacing an earlier one; other routes stay (router.go:15-17). */
    method AddRouter(verb: string, pattern: string, f: H)
      modifies this
      ensures handler == old(handler)[RouteKey(verb, pattern) := f]
      ensures Lookup(verb, pattern) == Some(f)
      ensures forall k :: k in old(handler) && k != RouteKey(verb, pattern) ==> k in handler && handler[k] == old(handler)[k]
    {
      handler := handler[RouteKey(verb, pattern) := f];
    }

    /** The handler registered for exactly this method and path, if any. */
    function Lookup(verb: string, path: string): (h: Option<H>)
      reads this
      ensures h.Some? <==> RouteKey(verb, path) in handler
      ensures h.Some? ==> h.value == handler[RouteKey(verb, path)]
    {
      var key := RouteKey(verb, path);
      if key in handler then Some(handler[key]) else None
    }

    /**
     * router.handle: the handler under the context's exact method-path key is
     * the one to run, and the context is left to it; without one the context
     * answers 404 "Page <path> Not Found!" as plain text (router.go:19-26).
     */
    method Handle(ctx: Context) returns (run: Option<H>)
      modifies ctx`header, ctx`statusCode, ctx`statusWrites, ctx`body
      ensures run == Lookup(ctx.verb, ctx.path)
      ensures run.Some? ==> ctx.header == old(ctx.header) && ctx.statusWrites == old(ctx.statusWrites)
                            && ctx.body == old(ctx.body) && ctx.statusCode == old(ctx.statusCode)
      ensures run.None? ==>
                && ctx.statusCode == 404 && ctx.statusWrites == old(ctx.statusWrites) + [404]
                && ctx.header == old(ctx.header)["Content-Type" := "text/plain"]
                && ctx.statusWrites[0] == (if old(ctx.statusWrites) == [] then 404 else old(ctx.statusWrites)[0])
                && ctx.body == old(ctx.body) + if BodySent(ctx.verb, ctx.statusWrites[0]) then "Page " + ctx.path + " Not Found!" else ""
    {
      var key := RouteKey(ctx.verb, ctx.path);
      if key in handler {
        return Some(handler[key]);
      }
      NotFoundText(ctx.path);
      ctx.String(404, NotFoundFormat, [ctx.path]);
      run := None;
    }
  }
}
