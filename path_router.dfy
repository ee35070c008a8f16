/**
  The path router of lib/routers/path-router.js on the shared engine: route
  patterns are validated, percent-decoded, Unicode-normalised and, unless
  trailing slashes are respected, stripped of one trailing `/`; a pattern
  without parameters is a static key, one with parameters a trie route whose
  parameter positions are wildcards. A handler that is a `Route` is wrapped
  so that, when it runs, the parameters are read from the raw request path.

  `String.prototype.normalize()` is a parameter of the router (`nfc`).
 */
module PathRouting {
  import opened Wrappers
  import opened Js
  import opened MatchEngine
  import opened PathPatterns
  import PercentDecode
  import SearchProperties
  import Text

  /** What the trie and the table hold: the handler as given, or wrapped by `wrapWithParams`. */
  datatype Handler<H> = Plain(handler: H) | WithParams(handler: H, indexes: seq<(JsString, nat)>)

  /** The name JavaScript's object literal treats as a setter: assigning a string to it stores nothing. */
  const Proto: JsString := Ascii("__proto__")

  /**
    The `params` object `wrapWithParams` builds from the raw path segments
    `keys`: each listed name in turn is set to the segment at its index
    (`undefined` past the end), a later name overriding an earlier one.
   */
  function ParamsObject(keys: seq<JsString>, indexes: seq<(JsString, nat)>): map<JsString, Option<JsString>>
    decreases |indexes|
  {
    if indexes == [] then map[]
    else
      var m := ParamsObject(keys, indexes[..|indexes| - 1]);
      var name := indexes[|indexes| - 1].0;
      var index := indexes[|indexes| - 1].1;
      if name == Proto then m else m[name := if index < |keys| then Some(keys[index]) else None]
  }

  /**
    A name is present exactly when it is listed and is not `__proto__`, and
    it holds the segment of its last listing.
   */
  lemma ParamsObjectLookup(keys: seq<JsString>, indexes: seq<(JsString, nat)>, name: JsString)
    ensures name in ParamsObject(keys, indexes) <==> name != Proto && exists k :: 0 <= k < |indexes| && indexes[k].0 == name
    ensures forall k :: 0 <= k < |indexes| && indexes[k].0 == name && name != Proto
                        && (forall k' :: k < k' < |indexes| ==> indexes[k'].0 != name) ==>
      ParamsObject(keys, indexes)[name] == if indexes[k].1 < |keys| then Some(keys[indexes[k].1]) else None
  {
    ParamsObjectHas(keys, indexes, name);
    forall k | 0 <= k < |indexes| && indexes[k].0 == name && name != Proto
                 && (forall k' :: k < k' < |indexes| ==> indexes[k'].0 != name)
      ensures ParamsObject(keys, indexes)[name] == if indexes[k].1 < |keys| then Some(keys[indexes[k].1]) else None
    {
      ParamsObjectLast(keys, indexes, name, k);
    }
  }

  /** The names present are those listed, `__proto__` excepted. */
  lemma {:induction false} ParamsObjectHas(keys: seq<JsString>, indexes: seq<(JsString, nat)>, name: JsString)
    ensures name in ParamsObject(keys, indexes) <==> name != Proto && exists k :: 0 <= k < |indexes| && indexes[k].0 == name
    decreases |indexes|
  {
    if indexes != [] {
      var init := indexes[..|indexes| - 1];
      ParamsObjectHas(keys, init, name);
      assert forall k :: 0 <= k < |init| ==> init[k] == indexes[k];
      if name != Proto && exists k :: 0 <= k < |indexes| && indexes[k].0 == name {
        var k :| 0 <= k < |indexes| && indexes[k].0 == name;
        if k < |init| {
          assert init[k].0 == name;
        }
      }
    }
  }

  /** A name listed last at position `k` holds the segment at that listing's index. */
  lemma {:induction false} ParamsObjectLast(keys: seq<JsString>, indexes: seq<(JsString, nat)>, name: JsString, k: nat)
    requires k < |indexes| && indexes[k].0 == name && name != Proto
    requires forall k' :: k < k' < |indexes| ==> indexes[k'].0 != name
    ensures name in ParamsObject(keys, indexes)
    ensures ParamsObject(keys, indexes)[name] == if indexes[k].1 < |keys| then Some(keys[indexes[k].1]) else None
    decreases |indexes|
  {
    if k < |indexes| - 1 {
      var init := indexes[..|indexes| - 1];
      assert init[k] == indexes[k];
      assert forall k' :: k < k' < |init| ==> init[k'] == indexes[k'];
      ParamsObjectLast(keys, init, name, k);
    }
  }

  /** `wrapWithParams`, when the wrapped handler runs: the loop filling `params` from the raw path's segments. */
  method WrapWithParams(raw: JsString, indexes: seq<(JsString, nat)>) returns (params: map<JsString, Option<JsString>>)
    ensures params == ParamsObject(Text.Split(raw, Slash), indexes)
  {
    var keys := Text.Split(raw, Slash);
    params := map[];
    var k := 0;
    while k < |indexes|
      invariant k <= |indexes|
      invariant params == ParamsObject(keys, indexes[..k])
    {
      assert indexes[..k + 1][..k] == indexes[..k];
      var name, index := indexes[k].0, indexes[k].1;
      if name != Proto {
        params := params[name := if index < |keys| then Some(keys[index]) else None];
      }
      k := k + 1;
    }
    assert indexes[..k] == indexes;
  }

  /** The positions `ParamIndexes` lists are in increasing order. */
  predicate Increasing(r: seq<(JsString, nat)>)
  {
    forall k, k' :: 0 <= k < k' < |r| ==> r[k].1 < r[k'].1
  }

  lemma {:induction false} ParamIndexesOrdered(params: seq<JsString>, from: nat)
    ensures Increasing(ParamIndexes(params, from))
    decreases |params|
  {
    if params != [] {
      ParamIndexesOrdered(params[1..], from + 1);
      var rest := ParamIndexes(params[1..], from + 1);
      forall k | 0 <= k < |rest| ensures rest[k].1 > from + 1 {
        ParamIndexesListed(params[1..], from + 1, rest[k].0, rest[k].1);
      }
      if params[0] != [] {
        var r := ParamIndexes(params, from);
        assert r == [(params[0], from + 1)] + rest;
        forall k, k' | 0 <= k < k' < |r| ensures r[k].1 < r[k'].1 {
          assert r[k'] == rest[k' - 1];
          assert rest[k' - 1].1 > from + 1;
          if k > 0 {
            assert r[k] == rest[k - 1];
            assert rest[k - 1].1 < rest[k' - 1].1;
          }
        }
      }
    }
  }

  /**
    What a route handler sees: the parameter a pattern declares at segment
    `i` (its last use of that name) holds the raw request path's segment
    `i + 1`, the leading empty segment before the first `/` counting as 0;
    a parameter named `__proto__` is never set.
   */
  lemma ParamValue(pattern: JsString, raw: JsString, i: nat)
    requires |pattern| >= 1 && i < |Params(pattern)|
    requires Params(pattern)[i] != []
    requires forall j :: i < j < |Params(pattern)| ==> Params(pattern)[j] != Params(pattern)[i]
    ensures var params := ParamsObject(Text.Split(raw, Slash), ParamIndexes(Params(pattern), 0));
      var name := Params(pattern)[i];
      && (name == Proto <==> name !in params)
      && (name != Proto ==> params[name] == if i + 1 < |Text.Split(raw, Slash)| then Some(Text.Split(raw, Slash)[i + 1]) else None)
  {
    var params := Params(pattern);
    var name := params[i];
    var keys := Text.Split(raw, Slash);
    var r := ParamIndexes(params, 0);
    ParamIndexesListed(params, 0, name, i + 1);
    var k :| 0 <= k < |r| && r[k] == (name, i + 1);
    ParamsObjectLookup(keys, r, name);
    ParamIndexesOrdered(params, 0);
    forall k' | k < k' < |r| ensures r[k'].0 != name {
      ParamIndexesListed(params, 0, r[k'].0, r[k'].1);
    }
  }

  /** `respectTrailingSlash ? identity : noSlash`. */
  function Normalizer(respectTrailingSlash: bool, s: JsString): JsString
  {
    if respectTrailingSlash then s else NoSlash(s)
  }

  class PathRouter<H> {
    const engine: Router<Unit, Handler<H>>
    const respectTrailingSlash: bool
    const nfc: JsString -> JsString

    ghost predicate Valid()
      reads this, engine
    {
      engine.Valid()
    }

    /** The key of a pathname, for routes and requests alike: decoded, normalised, maybe stripped of a trailing `/`. */
    function Canonical(pathname: JsString): JsString
      reads this
    {
      Normalizer(respectTrailingSlash, nfc(PercentDecode.Decoding(pathname, PercentDecode.Truncating)))
    }

    /** `getStaticKey`: empty for a request that cannot be located, else the canonical pathname. */
    function StaticKey(location: Option<JsString>): (key: JsString)
      reads this
      ensures location.None? ==> key == []
    {
      if location.None? then [] else Canonical(location.value)
    }

    /** The router with empty tables and the 404 handler for unmatched paths. */
    constructor(respectTrailingSlash: bool, nfc: JsString -> JsString, notFound: H)
      ensures Valid() && fresh(engine)
      ensures this.respectTrailingSlash == respectTrailingSlash && this.nfc == nfc
      ensures engine.statics == map[] && engine.missing == Plain(notFound) && !engine.changed
      ensures forall r :: RouteAt(engine.nodes, r) == None
    {
      this.respectTrailingSlash := respectTrailingSlash;
      this.nfc := nfc;
      engine := new Router(Plain(notFound));
    }

    /**
      `route(pathname, handler)`: an invalid pattern, or one that does not
      decode, throws; a pattern without parameters adds its canonical form
      as a static key; otherwise its canonical segments become a trie route
      with a wildcard at each parameter position, holding the handler
      wrapped with the parameter positions when it is a `Route`. A key or
      route already present throws; nothing changes when anything throws.
     */
    method Route(pathname: JsString, handler: H, isRoute: bool) returns (thrown: Option<Thrown>)
      requires Valid()
      modifies engine`statics, engine`nodes
      ensures Valid()
      ensures !ValidRoute(pathname) ==> thrown == Some(TypeError("Invalid pathname: "))
      ensures ValidRoute(pathname) && Canonical(pathname) == [] ==> thrown == Some(TypeError("Pathname contains invalid encodings"))
      ensures ValidRoute(pathname) && Canonical(pathname) != [] ==>
        var key := Canonical(pathname);
        var params := Params(pathname);
        && (thrown.Some? ==> thrown == Some(TypeError("Duplicate route: ")))
        && (IsStatic(params) ==>
              && (thrown.None? <==> key !in old(engine.statics))
              && engine.statics == (if thrown.None? then old(engine.statics)[key := Plain(handler)] else old(engine.statics))
              && engine.nodes == old(engine.nodes))
        && (!IsStatic(params) ==>
              var parts := DynamicParts(key, params);
              var stored := if isRoute then WithParams(handler, ParamIndexes(params, 0)) else Plain(handler);
              && engine.statics == old(engine.statics)
              && (thrown.None? <==> RouteAt(old(engine.nodes), parts).None?)
              && forall r :: RouteAt(engine.nodes, r)
                   == if thrown.None? && r == parts then Some(stored) else RouteAt(old(engine.nodes), r))
      ensures thrown.Some? ==> engine.statics == old(engine.statics)
      ensures thrown.Some? ==> forall r :: RouteAt(engine.nodes, r) == RouteAt(old(engine.nodes), r)
    {
      if !ValidRoute(pathname) {
        return Some(TypeError("Invalid pathname: "));
      }
      var params := Params(pathname);
      var key := Canonical(pathname);
      if key == [] {
        return Some(TypeError("Pathname contains invalid encodings"));
      }
      var ok;
      if forall i :: 0 <= i < |params| ==> params[i] == [] {
        ok := engine.AddStaticRoute(key, Plain(handler));
      } else {
        var parts := DynamicParts(key, params);
        var stored := if isRoute then WithParams(handler, ParamIndexes(params, 0)) else Plain(handler);
        ok := engine.AddDynamicRoute(parts, stored);
      }
      if !ok {
        return Some(TypeError("Duplicate route: "));
      }
      return None;
    }

    /** `notFound(handler)`: replaces the 404 handler once; a second call throws and changes nothing. */
    method NotFound(handler: H) returns (thrown: Option<Thrown>)
      modifies engine`missing, engine`changed
      ensures thrown.None? <==> !old(engine.changed)
      ensures thrown.Some? ==> thrown == Some(TypeError("A notFound handler was already set on this router"))
      ensures engine.changed
      ensures engine.missing == if thrown.None? then Plain(handler) else old(engine.missing)
    {
      var ok := engine.SetMissingRoute(Plain(handler));
      if !ok {
        return Some(TypeError("A notFound handler was already set on this router"));
      }
      return None;
    }

    /**
      The request handler: an unlocatable request, or one whose path does
      not decode to anything, is destroyed; an exact canonical pathname
      wins; otherwise the trie is searched with its segments, and a handler
      found there belongs to a registered route matching them. A wrapped
      handler gets the parameters read from the raw request path.
     */
    method Serve(location: Option<JsString>) returns (o: Outcome<Handler<H>>, params: Option<map<JsString, Option<JsString>>>)
      requires Valid()
      ensures o.Destroyed? <==> StaticKey(location) == []
      ensures var key := StaticKey(location);
        && (key != [] && key in engine.statics ==> o == Handled(engine.statics[key]))
        && (key != [] && key !in engine.statics && o.Handled? ==>
              && DynamicKeys(key).Some?
              && (exists r :: RouteAt(engine.nodes, r) == Some(o.handler)
                   && SearchProperties.MatchesFrom(r, DynamicKeys(key).value, 0, false))
              && (SearchProperties.NoEmptyKey(DynamicKeys(key).value) ==>
                    exists r :: RouteAt(engine.nodes, r) == Some(o.handler)
                      && SearchProperties.MatchesFrom(r, DynamicKeys(key).value, 0, true)))
        && (key != [] && key !in engine.statics && DynamicKeys(key).None? ==> o == Missing(engine.missing))
        && (key != [] && key !in engine.statics && !o.Handled? ==> o == Missing(engine.missing))
      ensures params.Some? <==> o.Handled? && o.handler.WithParams? && location.Some?
      ensures params.Some? ==> params.value == ParamsObject(Text.Split(location.value, Slash), o.handler.indexes)
    {
      var key := StaticKey(location);
      o := engine.Lookup(key, DynamicKeys);
      if key != [] && key !in engine.statics && o.Handled? {
        var keys := DynamicKeys(key).value;
        SearchProperties.SearchSound(engine.nodes, keys, 0, 0, false);
        if SearchProperties.NoEmptyKey(keys) {
          SearchProperties.NoEmptyKeyAgrees(engine.nodes, keys, 0, 0);
          SearchProperties.SearchSound(engine.nodes, keys, 0, 0, true);
        }
      }
      params := None;
      if o.Handled? && o.handler.WithParams? && location.Some? {
        var p := WrapWithParams(location.value, o.handler.indexes);
        params := Some(p);
      }
    }
  }

  /** A request whose path is not a valid encoding is destroyed, given that normalising the empty string leaves it empty. */
  lemma UndecodableDestroyed<H>(router: PathRouter<H>, path: JsString)
    requires router.nfc([]) == []
    requires PercentDecode.Decoded(path, 0, PercentDecode.Truncating).None?
    ensures router.StaticKey(Some(path)) == []
  {
  }
}
