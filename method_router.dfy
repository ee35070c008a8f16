/**
  The method router of lib/routers/method-router.js on the shared engine:
  one static key per HTTP verb, no trie routes, and a 405 handler for any
  other method.
 */
module MethodRouting {
  import opened Wrappers
  import opened MatchEngine

  /** The verbs the router has a registration method for. */
  datatype Verb = Get | Post | Put | Patch | Delete | Head | Options | Trace

  /** The method name each registration method adds. */
  function Name(v: Verb): string
  {
    match v
    case Get => "GET"
    case Post => "POST"
    case Put => "PUT"
    case Patch => "PATCH"
    case Delete => "DELETE"
    case Head => "HEAD"
    case Options => "OPTIONS"
    case Trace => "TRACE"
  }

  /** Each verb has its own non-empty key, so registering one never takes another's place. */
  lemma NamesDistinct(v: Verb, w: Verb)
    ensures Name(v) != []
    ensures Name(v) == Name(w) <==> v == w
  {
  }

  /** `getDynamicKeys`: a method name never has dynamic keys. */
  function NoDynamicKeys(key: string): Option<seq<string>>
  {
    None
  }

  class MethodRouter<H> {
    const engine: Router<char, H>

    ghost predicate Valid()
      reads this, engine
    {
      engine.Valid()
    }

    /** The router with no methods and the 405 handler. */
    constructor(methodNotAllowed: H)
      ensures Valid() && fresh(engine)
      ensures engine.statics == map[] && engine.missing == methodNotAllowed && !engine.changed
    {
      engine := new Router(methodNotAllowed);
    }

    /** `get(handler)` … `trace(handler)` through `addMethod`: a verb already added throws and changes nothing. */
    method AddMethod(verb: Verb, handler: H) returns (thrown: Option<Thrown>)
      modifies engine`statics
      ensures thrown.None? <==> Name(verb) !in old(engine.statics)
      ensures thrown.Some? ==> thrown == Some(TypeError("Duplicate method: " + Name(verb)))
      ensures engine.statics == if thrown.None? then old(engine.statics)[Name(verb) := handler] else old(engine.statics)
    {
      var ok := engine.AddStaticRoute(Name(verb), handler);
      if !ok {
        return Some(TypeError("Duplicate method: " + Name(verb)));
      }
      return None;
    }

    /** `noSuchMethod(handler)`: replaces the 405 handler once; a second call throws and changes nothing. */
    method NoSuchMethod(handler: H) returns (thrown: Option<Thrown>)
      modifies engine`missing, engine`changed
      ensures thrown.None? <==> !old(engine.changed)
      ensures thrown.Some? ==> thrown == Some(TypeError("A noSuchMethod handler was already set on this router"))
      ensures engine.changed
      ensures engine.missing == if thrown.None? then handler else old(engine.missing)
    {
      var ok := engine.SetMissingRoute(handler);
      if !ok {
        return Some(TypeError("A noSuchMethod handler was already set on this router"));
      }
      return None;
    }

    /** The request handler: the method's handler when one was added, the 405 handler for any other non-empty method. */
    method Serve(requestMethod: string) returns (o: Outcome<H>)
      requires Valid()
      ensures requestMethod == [] <==> o.Destroyed?
      ensures requestMethod != [] ==> o == if requestMethod in engine.statics then Handled(engine.statics[requestMethod]) else Missing(engine.missing)
    {
      o := engine.Lookup(requestMethod, NoDynamicKeys);
    }
  }
}
