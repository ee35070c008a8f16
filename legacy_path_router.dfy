/**
  The older path router of lib/path-router.js: the same patterns and trie
  routes as `PathRouting`, normalised with `normalize('NFD')` (a parameter
  of the router, `nfd`) and one of four normalisers chosen by the
  `respectCase` and `respectTrailingSlash` options; handlers are stored as
  given. Lower-casing is modelled on ASCII letters.
 */
module LegacyPathRouting {
  import opened Wrappers
  import opened Js
  import opened MatchEngine
  import opened PathPatterns
  import PercentDecode
  import SearchProperties
  import Text

  /** The four normalisers: `identity`, `noCase`, `noSlash` and `noCaseNoSlash`. */
  datatype Normalizer = KeepAll | LowerCase | StripSlash | LowerCaseStripSlash
  {
    predicate IgnoresCase() { this == LowerCase || this == LowerCaseStripSlash }

    predicate IgnoresSlash() { this == StripSlash || this == LowerCaseStripSlash }
  }

  /** The constructor's choice: case is ignored unless respected, and so is one trailing slash. */
  function Choose(respectCase: bool, respectTrailingSlash: bool): (n: Normalizer)
    ensures n.IgnoresCase() <==> !respectCase
    ensures n.IgnoresSlash() <==> !respectTrailingSlash
  {
    if respectTrailingSlash then (if respectCase then KeepAll else LowerCase)
    else if respectCase then StripSlash else LowerCaseStripSlash
  }

  function Apply(n: Normalizer, s: JsString): JsString
  {
    match n
    case KeepAll => s
    case LowerCase => LowerUnits(s)
    case StripSlash => NoSlash(s)
    case LowerCaseStripSlash => LowerUnits(NoSlash(s))
  }

  /** Lower-casing leaves `/` where it is, so `noCaseNoSlash` could strip before or after lower-casing. */
  lemma NoCaseNoSlashCommutes(s: JsString)
    ensures Apply(LowerCaseStripSlash, s) == NoSlash(LowerUnits(s))
  {
    if |s| > 1 && s[|s| - 1] == Slash {
      assert LowerUnits(s[..|s| - 1]) == LowerUnits(s)[..|s| - 1];
    }
  }

  /** A normaliser that ignores case gives every case variant of a path the same key, and is idempotent when it keeps slashes. */
  lemma CaseVariantsAgree(n: Normalizer, s: JsString, t: JsString)
    requires n.IgnoresCase() && |s| == |t| && forall i :: 0 <= i < |s| ==> LowerUnit(s[i]) == LowerUnit(t[i])
    ensures Apply(n, s) == Apply(n, t)
    ensures !n.IgnoresSlash() ==> Apply(n, Apply(n, s)) == Apply(n, s)
  {
    if n == LowerCaseStripSlash {
      NoCaseNoSlashCommutes(s);
      NoCaseNoSlashCommutes(t);
      assert LowerUnits(s) == LowerUnits(t);
    } else {
      assert LowerUnits(s) == LowerUnits(t);
      assert LowerUnits(LowerUnits(s)) == LowerUnits(s);
    }
  }

  class LegacyPathRouter<H> {
    const engine: Router<Unit, H>
    const normalizer: Normalizer
    const nfd: JsString -> JsString

    ghost predicate Valid()
      reads this, engine
    {
      engine.Valid()
    }

    /** The key of a pathname, for routes and requests alike: decoded, decomposed, then normalised. */
    function Canonical(pathname: JsString): JsString
      reads this
    {
      Apply(normalizer, nfd(PercentDecode.Decoding(pathname, PercentDecode.Truncating)))
    }

    /** `getStaticKey`: empty for a request that cannot be located, else the canonical pathname. */
    function StaticKey(location: Option<JsString>): (key: JsString)
      reads this
      ensures location.None? ==> key == []
    {
      if location.None? then [] else Canonical(location.value)
    }

    /** The router with empty tables, the 404 handler, and the normaliser its options choose. */
    constructor(respectCase: bool, respectTrailingSlash: bool, nfd: JsString -> JsString, notFound: H)
      ensures Valid() && fresh(engine)
      ensures normalizer == Choose(respectCase, respectTrailingSlash) && this.nfd == nfd
      ensures engine.statics == map[] && engine.missing == notFound && !engine.changed
      ensures forall r :: RouteAt(engine.nodes, r) == None
    {
      normalizer := Choose(respectCase, respectTrailingSlash);
      this.nfd := nfd;
      engine := new Router(notFound);
    }

    /**
      `define(pathname, handler)`: as `PathRouting.PathRouter.Route`, with
      the handler stored as given.
     */
    method Define(pathname: JsString, handler: H) returns (thrown: Option<Thrown>)
      requires Valid()
      modifies engine`statics, engine`nodes
      ensures Valid()
      ensures !ValidRoute(pathname) ==> thrown == Some(TypeError("Invalid pathname: "))
      ensures ValidRoute(pathname) && Canonical(pathname) == [] ==> thrown == Some(TypeError("Pathname contains invalid encodings"))
      ensures ValidRoute(pathname) && Canonical(pathname) != [] ==>
        var key := Canonical(pathname);
        var params := Params(pathname);
        && (thrown.Some? ==> thrown == Some(TypeError("Duplicate route: ")))
        && (IsStatic(params) ==>
              && (thrown.None? <==> key !in old(engine.statics))
              && engine.statics == (if thrown.None? then old(engine.statics)[key := handler] else old(engine.statics))
              && engine.nodes == old(engine.nodes))
        && (!IsStatic(params) ==>
              var parts := DynamicParts(key, params);
              && engine.statics == old(engine.statics)
              && (thrown.None? <==> RouteAt(old(engine.nodes), parts).None?)
              && forall r :: RouteAt(engine.nodes, r)
                   == if thrown.None? && r == parts then Some(handler) else RouteAt(old(engine.nodes), r))
      ensures thrown.Some? ==> engine.statics == old(engine.statics)
      ensures thrown.Some? ==> forall r :: RouteAt(engine.nodes, r) == RouteAt(old(engine.nodes), r)
    {
      if !ValidRoute(pathname) {
        return Some(TypeError("Invalid pathname: "));
      }
      var params := Params(pathname);
      var key := Canonical(pathname);
      if key == [] {
        return Some(TypeError("Pathname contains invalid encodings"));
      }
      var ok;
      if forall i :: 0 <= i < |params| ==> params[i] == [] {
        ok := engine.AddStaticRoute(key, handler);
      } else {
        ok := engine.AddDynamicRoute(DynamicParts(key, params), handler);
      }
      if !ok {
        return Some(TypeError("Duplicate route: "));
      }
      return None;
    }

    /** `notFound(handler)`: replaces the 404 handler once; a second call throws and changes nothing. */
    method NotFound(handler: H) returns (thrown: Option<Thrown>)
      modifies engine`missing, engine`changed
      ensures thrown.None? <==> !old(engine.changed)
      ensures thrown.Some? ==> thrown == Some(TypeError("A notFound handler was already set on this router"))
      ensures engine.changed
      ensures engine.missing == if thrown.None? then handler else old(engine.missing)
    {
      var ok := engine.SetMissingRoute(handler);
      if !ok {
        return Some(TypeError("A notFound handler was already set on this router"));
      }
      return None;
    }

    /**
      The request handler: an unlocatable or undecodable request is
      destroyed, an exact canonical pathname wins, otherwise a handler found
      in the trie belongs to a registered route matching the path's segments.
     */
    method Serve(location: Option<JsString>) returns (o: Outcome<H>)
      requires Valid()
      ensures o.Destroyed? <==> StaticKey(location) == []
      ensures var key := StaticKey(location);
        && (key != [] && key in engine.statics ==> o == Handled(engine.statics[key]))
        && (key != [] && key !in engine.statics && o.Handled? ==>
              && DynamicKeys(key).Some?
              && (exists r :: RouteAt(engine.nodes, r) == Some(o.handler)
                   && SearchProperties.MatchesFrom(r, DynamicKeys(key).value, 0, false))
              && (SearchProperties.NoEmptyKey(DynamicKeys(key).value) ==>
                    exists r :: RouteAt(engine.nodes, r) == Some(o.handler)
                      && SearchProperties.MatchesFrom(r, DynamicKeys(key).value, 0, true)))
        && (key != [] && key !in engine.statics && DynamicKeys(key).None? ==> o == Missing(engine.missing))
        && (key != [] && key !in engine.statics && !o.Handled? ==> o == Missing(engine.missing))
    {
      var key := StaticKey(location);
      o := engine.Lookup(key, DynamicKeys);
      if key != [] && key !in engine.statics && o.Handled? {
        var keys := DynamicKeys(key).value;
        SearchProperties.SearchSound(engine.nodes, keys, 0, 0, false);
        if SearchProperties.NoEmptyKey(keys) {
          SearchProperties.NoEmptyKeyAgrees(engine.nodes, keys, 0, 0);
          SearchProperties.SearchSound(engine.nodes, keys, 0, 0, true);
        }
      }
    }
  }
}
