/**
 * The request context of gee/context.go: the route parameters, the status
 * code, the response headers and body, and the middleware chain walked by
 * `Next`. A handler is user code; what matters to the chain is only whether
 * it calls `Next` (a middleware) or not (an endpoint). The response writer
 * is recorded in fields: the header table under canonical keys, the codes
 * passed to WriteHeader (the first of them is the status sent) and the text
 * the response carries.
 */
module WebContext {
  import opened GoFmt

  /** A handler in the chain, described by whether it passes control on by calling Next once. */
  datatype Handler = Handler(callsNext: bool)

  /** Where a chain walk started at `index` stops: the first endpoint after it, or the end of the chain. */
  function Stop(handlers: seq<Handler>, index: int): (s: int)
    requires index >= -1
    ensures s > index
    ensures s < |handlers| ==> !handlers[s].callsNext
    ensures s >= |handlers| ==> s == (if index + 1 >= |handlers| then index + 1 else |handlers|)
    ensures forall j :: index < j < s && j < |handlers| ==> handlers[j].callsNext
    decreases |handlers| - index
  {
    var next := index + 1;
    if next >= |handlers| then next
    else if handlers[next].callsNext then Stop(handlers, next)
    else next
  }

  /** The positions of the handlers a walk from `index` runs, in the order they start. */
  function Ran(handlers: seq<Handler>, index: int): (r: seq<int>)
    requires index >= -1
    ensures |r| == (if Stop(handlers, index) < |handlers| then Stop(handlers, index) - index
                    else if index + 1 >= |handlers| then 0 else |handlers| - index - 1)
    ensures forall j :: 0 <= j < |r| ==> r[j] == index + 1 + j
    decreases |handlers| - index
  {
    var next := index + 1;
    if next >= |handlers| then []
    else if handlers[next].callsNext then [next] + Ran(handlers, next)
    else [next]
  }

  /**
   * When every handler but possibly the last calls Next, a walk from the
   * start (index -1, as newContext leaves it) runs every handler once, in
   * order, and leaves the index at the end of the chain.
   */
  lemma ChainRunsEachOnce(handlers: seq<Handler>)
    requires forall j :: 0 <= j < |handlers| - 1 ==> handlers[j].callsNext
    ensures Stop(handlers, -1) == |handlers| || Stop(handlers, -1) == |handlers| - 1
    ensures |Ran(handlers, -1)| == |handlers|
    ensures forall j :: 0 <= j < |handlers| ==> Ran(handlers, -1)[j] == j
  {
  }

  /** The first endpoint stops the walk: the handlers after it do not run. */
  lemma EndpointStopsChain(handlers: seq<Handler>, e: nat)
    requires e < |handlers| && !handlers[e].callsNext
    requires forall j :: 0 <= j < e ==> handlers[j].callsNext
    ensures Stop(handlers, -1) == e && Ran(handlers, -1) == seq(e + 1, j => j)
  {
    var ran := Ran(handlers, -1);
    assert |ran| == e + 1;
  }

  /** A character net/textproto accepts in a header key: a token character (RFC 7230, section 3.2.6). */
  predicate IsTokenChar(c: char) {
    ('a' <= c <= 'z') || ('A' <= c <= 'Z') || ('0' <= c <= '9') || c in "!#$%&'*+-.^_`|~"
  }

  function Upper(c: char): char {
    if 'a' <= c <= 'z' then (c as int - 32) as char else c
  }

  function Lower(c: char): char {
    if 'A' <= c <= 'Z' then (c as int + 32) as char else c
  }

  /** Whether position `i` of a key starts a word: it is the first, or a '-' precedes it. */
  predicate StartsWord(s: string, i: int)
    requires 0 <= i < |s|
  {
    i == 0 || s[i - 1] == '-'
  }

  /** Letters that start a word in upper case, every other letter in lower case. */
  function CaseKey(s: string): (k: string)
    ensures |k| == |s|
  {
    seq(|s|, i requires 0 <= i < |s| => if StartsWord(s, i) then Upper(s[i]) else Lower(s[i]))
  }

  /** A key net/textproto will rewrite: every character is a token character. */
  predicate IsToken(key: string) {
    forall i :: 0 <= i < |key| ==> IsTokenChar(key[i])
  }

  /**
   * textproto.CanonicalMIMEHeaderKey, which Header().Set applies to its key:
   * a key of token characters gets its first letter and every letter after a
   * '-' in upper case and the others in lower case; any other key is kept.
   */
  function CanonicalKey(key: string): string {
    if IsToken(key) then CaseKey(key) else key
  }

  /** Two characters equal up to ASCII case agree in every respect the canonical form looks at. */
  lemma SameUpToCase(x: char, y: char)
    requires Lower(x) == Lower(y)
    ensures Upper(x) == Upper(y) && (x == '-' <==> y == '-') && (IsTokenChar(x) <==> IsTokenChar(y))
  {
  }

  /** Header keys of token characters that differ only in ASCII case are filed under one canonical key. */
  lemma CanonicalKeyIgnoresCase(a: string, b: string)
    requires IsToken(a)
    requires |a| == |b| && forall i :: 0 <= i < |a| ==> Lower(a[i]) == Lower(b[i])
    ensures CanonicalKey(a) == CanonicalKey(b)
  {
    forall i | 0 <= i < |a|
      ensures IsTokenChar(b[i]) && CaseKey(a)[i] == CaseKey(b)[i]
    {
      SameUpToCase(a[i], b[i]);
      if i > 0 {
        SameUpToCase(a[i - 1], b[i - 1]);
      }
    }
  }

  /** Changing a character's case twice is changing it once, and keeps '-' and token characters as they were. */
  lemma CaseOfCase(c: char)
    ensures Upper(Upper(c)) == Upper(c) && Upper(Lower(c)) == Upper(c)
    ensures Lower(Upper(c)) == Lower(c) && Lower(Lower(c)) == Lower(c)
    ensures (Upper(c) == '-' <==> c == '-') && (Lower(c) == '-' <==> c == '-')
    ensures (IsTokenChar(Upper(c)) <==> IsTokenChar(c)) && (IsTokenChar(Lower(c)) <==> IsTokenChar(c))
  {
  }

  /** A canonical key is its own canonical form. */
  lemma CanonicalKeyIdempotent(key: string)
    ensures CanonicalKey(CanonicalKey(key)) == CanonicalKey(key)
  {
    if IsToken(key) {
      var k := CaseKey(key);
      var kk := CaseKey(k);
      forall i | 0 <= i < |key|
        ensures IsTokenChar(k[i]) && kk[i] == k[i]
      {
        CaseOfCase(key[i]);
        if i > 0 {
          CaseOfCase(key[i - 1]);
          assert k[i - 1] == '-' <==> key[i - 1] == '-';
        }
        assert StartsWord(k, i) <==> StartsWord(key, i);
      }
    }
  }

  lemma TokenKeys()
    ensures IsToken("Content-Type") && IsToken("content-type")
  {
    var k, l := "Content-Type", "content-type";
    forall i | 0 <= i < |k|
      ensures IsTokenChar(k[i]) && IsTokenChar(l[i])
    {
      assert k[i] in k && l[i] in l;
    }
  }

  lemma CaseKeyContentType()
    ensures CaseKey("Content-Type") == "Content-Type"
  {
    var k := "Content-Type";
    var ck := CaseKey(k);
    forall i | 0 <= i < |k|
      ensures ck[i] == k[i]
    {
    }
  }

  lemma CaseKeyLowerContentType()
    ensures CaseKey("content-type") == "Content-Type"
  {
    var k, l := "Content-Type", "content-type";
    var cl := CaseKey(l);
    forall i | 0 <= i < |l|
      ensures cl[i] == k[i]
    {
    }
  }

  /** "Content-Type" is its own canonical form, and SetHeader("content-type", v) files v under it too. */
  lemma ContentTypeKey()
    ensures CanonicalKey("Content-Type") == "Content-Type"
    ensures CanonicalKey("content-type") == "Content-Type"
  {
    TokenKeys();
    CaseKeyContentType();
    CaseKeyLowerContentType();
  }

  /**
   * Whether net/http sends what a handler writes: nothing after a 1xx, 204 or
   * 304 status, and nothing in answer to a HEAD request.
   */
  predicate BodySent(verb: string, status: int) {
    verb != "HEAD" && !(100 <= status < 200) && status != 204 && status != 304
  }

  class Context {
    const verb: string
    const path: string
    var params: map<string, string>
    var statusCode: int
    var header: map<string, string>
    var statusWrites: seq<int>
    var body: string
    var handlers: seq<Handler>
    var index: int
    var ran: seq<int>

    /** newContext: method and path from the request, no handlers, index -1 (context.go:86-95). */
    constructor (verb: string, path: string)
      ensures this.verb == verb && this.path == path
      ensures handlers == [] && index == -1 && ran == []
      ensures params == map[] && statusCode == 0 && header == map[] && statusWrites == [] && body == ""
    {
      this.verb := verb;
      this.path := path;
      params := map[];
      statusCode := 0;
      header := map[];
      statusWrites := [];
      body := "";
      handlers := [];
      index := -1;
      ran := [];
    }

    /**
     * Context.Next: the index moves on by one before it is compared with the
     * chain's length; the handler there runs, and if it is a middleware it
     * calls Next in turn (context.go:26-32).
     */
    method Next()
      requires index >= -1
      modifies this`index, this`ran
      ensures index == Stop(handlers, old(index))
      ensures ran == old(ran) + Ran(handlers, old(index))
      decreases |handlers| - index
    {
      index := index + 1;
      if index < |handlers| {
        ran := ran + [index];
        if handlers[index].callsNext {
          Next();
        }
      }
    }

    /** Context.Param: the route parameter under `key`, or "" when there is none (context.go:34-37). */
    function Param(key: string): (v: string)
      reads this
      ensures key in params ==> v == params[key]
      ensures key !in params ==> v == ""
    {
      if key in params then params[key] else ""
    }

    /**
     * Context.Status: the code is recorded and passed to WriteHeader
     * (context.go:39-42). The first WriteHeader fixes the status and panics on a
     * code outside 100-999; a later one is only logged.
     */
    method Status(code: int)
      requires statusWrites != [] || 100 <= code <= 999
      modifies this`statusCode, this`statusWrites
      ensures statusCode == code && statusWrites == old(statusWrites) + [code]
      ensures statusWrites[0] == if old(statusWrites) == [] then code else old(statusWrites)[0]
    {
      statusCode := code;
      statusWrites := statusWrites + [code];
    }

    /** Context.SetHeader: one response header set under its key's canonical form, replacing an earlier value (context.go:44-46). */
    method SetHeader(key: string, value: string)
      modifies this`header
      ensures header == old(header)[CanonicalKey(key) := value]
    {
      header := header[CanonicalKey(key) := value];
    }

    /** ResponseWriter.Write after the status is fixed: the text goes out when the status and method allow a body. */
    method Write(text: string)
      requires statusWrites != []
      modifies this`body
      ensures body == old(body) + if BodySent(verb, statusWrites[0]) then text else ""
    {
      if BodySent(verb, statusWrites[0]) {
        body := body + text;
      }
    }

    /** Context.Data: the status, then the bytes as they are (context.go:55-58). */
    method Data(code: int, data: string)
      requires statusWrites != [] || 100 <= code <= 999
      modifies this`statusCode, this`statusWrites, this`body
      ensures statusCode == code && statusWrites == old(statusWrites) + [code]
      ensures statusWrites[0] == if old(statusWrites) == [] then code else old(statusWrites)[0]
      ensures body == old(body) + if BodySent(verb, statusWrites[0]) then data else ""
    {
      Status(code);
      Write(data);
    }

    /** Context.HTML: Content-Type text/html, the status, then the page (context.go:60-64). */
    method HTML(code: int, html: string)
      requires statusWrites != [] || 100 <= code <= 999
      modifies this`header, this`statusCode, this`statusWrites, this`body
      ensures header == old(header)["Content-Type" := "text/html"]
      ensures statusCode == code && statusWrites == old(statusWrites) + [code]
      ensures statusWrites[0] == if old(statusWrites) == [] then code else old(statusWrites)[0]
      ensures body == old(body) + if BodySent(verb, statusWrites[0]) then html else ""
    {
      ContentTypeKey();
      SetHeader("Content-Type", "text/html");
      Status(code);
      Write(html);
    }

    /** Context.String: Content-Type text/plain, the status, then the formatted text (context.go:66-70). */
    method String(code: int, format: string, args: seq<string>)
      requires statusWrites != [] || 100 <= code <= 999
      modifies this`header, this`statusCode, this`statusWrites, this`body
      ensures header == old(header)["Content-Type" := "text/plain"]
      ensures statusCode == code && statusWrites == old(statusWrites) + [code]
      ensures statusWrites[0] == if old(statusWrites) == [] then code else old(statusWrites)[0]
      ensures body == old(body) + if BodySent(verb, statusWrites[0]) then Sprintf(format, args) else ""
    {
      ContentTypeKey();
      SetHeader("Content-Type", "text/plain");
      Status(code);
      Write(Sprintf(format, args));
    }

    /**
     * Context.Fail: String with the message as the format and no operands,
     * so a message without '%' is written as it is (context.go:82-84).
     */
    method Fail(code: int, err: string)
      requires statusWrites != [] || 100 <= code <= 999
      modifies this`header, this`statusCode, this`statusWrites, this`body
      ensures header == old(header)["Content-Type" := "text/plain"]
      ensures statusCode == code && statusWrites == old(statusWrites) + [code]
      ensures statusWrites[0] == if old(statusWrites) == [] then code else old(statusWrites)[0]
      ensures body == old(body) + if BodySent(verb, statusWrites[0]) then Sprintf(err, []) else ""
      ensures '%' !in err && BodySent(verb, statusWrites[0]) ==> body == old(body) + err
    {
      String(code, err, []);
      if '%' !in err {
        SprintfPlain(err);
      }
    }
  }
}
