/**
  What the trie search of lib/routers/router.js promises, stated against
  routes rather than nodes: a returned handler belongs to a registered route
  that matches the keys (soundness); a matching route is always found
  (completeness); and the winner is the matching route with the most literal
  parts earliest (priority, lib/routers/router.js:14-22).
 */
module SearchProperties {
  import opened Wrappers
  import opened MatchEngine

  /**
    Whether route part `p` accepts key `k`: a literal accepts itself; a
    parameter accepts a non-empty key, or any key when `strict` is off.
   */
  predicate Admits<E(==)>(p: Part<E>, k: seq<E>, strict: bool)
  {
    p == Some(k) || (p.None? && (k != [] || !strict))
  }

  /** Route `r` matches `keys[i..]` part by part. */
  ghost predicate MatchesFrom<E>(r: seq<Part<E>>, keys: seq<seq<E>>, i: nat, strict: bool)
  {
    i <= |keys| && |r| == |keys| - i && forall j :: 0 <= j < |r| ==> Admits(r[j], keys[i + j], strict)
  }

  /** No key is empty, so the search as written and the strict search cannot tell apart. */
  predicate NoEmptyKey<E>(keys: seq<seq<E>>)
  {
    forall j :: 0 <= j < |keys| ==> keys[j] != []
  }

  /** Route `a` wins over route `b`: at the first place they differ, `a` has a literal and `b` a parameter. */
  ghost predicate Before<E>(a: seq<Part<E>>, b: seq<Part<E>>)
  {
    exists j :: 0 <= j < |a| && j < |b| && a[..j] == b[..j] && a[j].Some? && b[j].None?
  }

  /** A route registered below `n` that carries a handler. */
  ghost predicate Registered<E, H>(t: Tree<E, H>, n: nat, r: seq<Part<E>>)
    requires WellFormed(t) && n < |t|
  {
    Walk(t, n, r).Some? && t[Walk(t, n, r).value].exit.Some?
  }

  lemma BeforeCons<E>(p: Part<E>, a: seq<Part<E>>, b: seq<Part<E>>)
    requires Before(a, b)
    ensures Before([p] + a, [p] + b)
  {
    var j :| 0 <= j < |a| && j < |b| && a[..j] == b[..j] && a[j].Some? && b[j].None?;
    assert ([p] + a)[..j + 1] == [p] + a[..j];
    assert ([p] + b)[..j + 1] == [p] + b[..j];
    assert ([p] + a)[j + 1] == a[j];
  }

  lemma LiteralBefore<E>(k: seq<E>, a: seq<Part<E>>, b: seq<Part<E>>)
    ensures Before([Some(k)] + a, [None] + b)
  {
    assert ([Some(k)] + a)[..0] == ([None] + b)[..0];
  }

  lemma MatchesCons<E>(p: Part<E>, r: seq<Part<E>>, keys: seq<seq<E>>, i: nat, strict: bool)
    requires i < |keys| && Admits(p, keys[i], strict) && MatchesFrom(r, keys, i + 1, strict)
    ensures MatchesFrom([p] + r, keys, i, strict)
  {
    forall j | 0 <= j < |[p] + r|
      ensures Admits(([p] + r)[j], keys[i + j], strict)
    {
      if j > 0 {
        assert ([p] + r)[j] == r[j - 1];
      }
    }
  }

  /**
    Soundness: the node `Search` returns ends a route below `n` that matches
    the remaining keys, a parameter admitting any key when `strict` is off.
   */
  lemma {:induction false} SearchSound<E, H>(t: Tree<E, H>, keys: seq<seq<E>>, n: nat, i: nat, strict: bool)
    requires WellFormed(t) && n < |t| && i <= |keys| && Search(t, keys, n, i, strict).Some?
    ensures exists r :: Walk(t, n, r) == Search(t, keys, n, i, strict) && MatchesFrom(r, keys, i, strict)
    decreases |keys| - i
  {
    var found := Search(t, keys, n, i, strict);
    if i == |keys| {
      assert Walk(t, n, []) == found && MatchesFrom([], keys, i, strict);
    } else {
      var key := keys[i];
      var c: nat;
      var p: Part<E>;
      if key in t[n].children && Search(t, keys, t[n].children[key], i + 1, strict).Some? {
        c, p := t[n].children[key], Some(key);
      } else {
        c, p := t[n].wild.value, None;
      }
      assert Step(t, n, p) == Some(c) && Search(t, keys, c, i + 1, strict) == found && Admits(p, key, strict);
      SearchSound(t, keys, c, i + 1, strict);
      var r :| Walk(t, c, r) == found && MatchesFrom(r, keys, i + 1, strict);
      WalkCons(t, n, c, p, r);
      MatchesCons(p, r, keys, i, strict);
    }
  }

  lemma MatchesTail<E>(r: seq<Part<E>>, keys: seq<seq<E>>, i: nat, strict: bool)
    requires MatchesFrom(r, keys, i, strict) && i < |keys|
    ensures Admits(r[0], keys[i], strict) && MatchesFrom(r[1..], keys, i + 1, strict)
  {
    forall j | 0 <= j < |r[1..]| ensures Admits(r[1..][j], keys[i + 1 + j], strict) {
      assert r[1..][j] == r[j + 1];
    }
  }

  /** The strict search below `n` is the search below the child that the first part leads to, unless the literal edge wins. */
  lemma SearchVia<E, H>(t: Tree<E, H>, keys: seq<seq<E>>, n: nat, i: nat, p: Part<E>, c: nat)
    requires WellFormed(t) && n < |t| && i < |keys| && Admits(p, keys[i], true) && Step(t, n, p) == Some(c)
    requires p.None? ==> keys[i] !in t[n].children || Search(t, keys, t[n].children[keys[i]], i + 1, true).None?
    ensures Search(t, keys, c, i + 1, true).Some? ==> Search(t, keys, n, i, true) == Search(t, keys, c, i + 1, true)
  {
  }

  /**
    Completeness and priority: when some registered route below `n` matches,
    `Search` finds a node, and the route to it is that route or wins over it.
   */
  lemma {:induction false} SearchFirst<E, H>(t: Tree<E, H>, keys: seq<seq<E>>, n: nat, i: nat, r: seq<Part<E>>)
    requires WellFormed(t) && n < |t| && Registered(t, n, r) && MatchesFrom(r, keys, i, true)
    ensures Search(t, keys, n, i, true).Some?
    ensures exists w :: Walk(t, n, w) == Search(t, keys, n, i, true) && MatchesFrom(w, keys, i, true) && (w == r || Before(w, r))
    decreases |r|
  {
    if i == |keys| {
      assert r == [] && Walk(t, n, []) == Some(n);
    } else {
      var key := keys[i];
      MatchesTail(r, keys, i, true);
      var c := Step(t, n, r[0]).value;
      WalkCons(t, n, c, r[0], r[1..]);
      assert r == [r[0]] + r[1..];
      if r[0].None? && key in t[n].children && Search(t, keys, t[n].children[key], i + 1, true).Some? {
        LiteralWins(t, keys, n, i, r, true);
      } else {
        assert Registered(t, c, r[1..]);
        SearchFirst(t, keys, c, i + 1, r[1..]);
        var w :| Walk(t, c, w) == Search(t, keys, c, i + 1, true) && MatchesFrom(w, keys, i + 1, true)
                 && (w == r[1..] || Before(w, r[1..]));
        FirstThrough(t, keys, n, i, r, c, w);
      }
    }
  }

  /** The inductive step of `SearchFirst`: a match found below the child that the route's first part leads to is found from `n`. */
  lemma FirstThrough<E, H>(t: Tree<E, H>, keys: seq<seq<E>>, n: nat, i: nat, r: seq<Part<E>>, c: nat, w: seq<Part<E>>)
    requires WellFormed(t) && n < |t| && i < |keys| && |r| > 0
    requires Admits(r[0], keys[i], true) && Step(t, n, r[0]) == Some(c)
    requires r[0].None? ==> keys[i] !in t[n].children || Search(t, keys, t[n].children[keys[i]], i + 1, true).None?
    requires Walk(t, c, w) == Search(t, keys, c, i + 1, true) && Walk(t, c, w).Some?
    requires MatchesFrom(w, keys, i + 1, true) && (w == r[1..] || Before(w, r[1..]))
    ensures Search(t, keys, n, i, true).Some?
    ensures exists v :: Walk(t, n, v) == Search(t, keys, n, i, true) && MatchesFrom(v, keys, i, true) && (v == r || Before(v, r))
  {
    SearchVia(t, keys, n, i, r[0], c);
    WalkCons(t, n, c, r[0], w);
    MatchesCons(r[0], w, keys, i, true);
    assert r == [r[0]] + r[1..];
    if w != r[1..] {
      BeforeCons(r[0], w, r[1..]);
    }
    assert Walk(t, n, [r[0]] + w) == Search(t, keys, n, i, true);
  }

  /**
    When a route takes a parameter edge where the literal edge's subtree
    already matches, that subtree's match wins, with either retry rule.
   */
  lemma LiteralWins<E, H>(t: Tree<E, H>, keys: seq<seq<E>>, n: nat, i: nat, r: seq<Part<E>>, strict: bool)
    requires WellFormed(t) && n < |t| && i < |keys| && |r| > 0 && r[0].None?
    requires keys[i] in t[n].children && Search(t, keys, t[n].children[keys[i]], i + 1, strict).Some?
    ensures Search(t, keys, n, i, strict).Some?
    ensures exists w :: Walk(t, n, w) == Search(t, keys, n, i, strict) && MatchesFrom(w, keys, i, strict) && Before(w, r)
  {
    var key := keys[i];
    var l := t[n].children[key];
    assert ChildOk(t, n, l);
    assert Step(t, n, Some(key)) == Some(l);
    assert Search(t, keys, n, i, strict) == Search(t, keys, l, i + 1, strict);
    SearchSound(t, keys, l, i + 1, strict);
    var w :| Walk(t, l, w) == Search(t, keys, l, i + 1, strict) && MatchesFrom(w, keys, i + 1, strict);
    WalkCons(t, n, l, Some(key), w);
    MatchesCons(Some(key), w, keys, i, strict);
    LiteralBefore(key, w, r[1..]);
    assert r == [None] + r[1..];
  }

  /** With no empty key, the search as written and the strict search agree. */
  lemma {:induction false} NoEmptyKeyAgrees<E, H>(t: Tree<E, H>, keys: seq<seq<E>>, n: nat, i: nat)
    requires WellFormed(t) && n < |t| && i <= |keys|
    requires NoEmptyKey(keys)
    ensures Search(t, keys, n, i, false) == Search(t, keys, n, i, true)
    decreases |keys| - i
  {
    if i < |keys| {
      var key := keys[i];
      if key in t[n].children {
        NoEmptyKeyAgrees(t, keys, t[n].children[key], i + 1);
      }
      if t[n].wild.Some? {
        NoEmptyKeyAgrees(t, keys, t[n].wild.value, i + 1);
      }
    }
  }

  /** Routes `[*, ""]` (handler 1) and `[*, *, "c"]` (handler 2). */
  function TwoRoutes(): Tree<char, int>
  {
    [ Node(map[], Some(1), None, None),
      Node(map["" := 2], Some(3), Some(0), None),
      Node(map[], None, Some(1), Some(1)),
      Node(map["c" := 4], None, Some(1), None),
      Node(map[], None, Some(3), Some(2)) ]
  }

  /** Route `[*, *, "c"]` (handler 2) alone. */
  function OneRoute(): Tree<char, int>
  {
    [ Node(map[], Some(1), None, None),
      Node(map[], Some(2), Some(0), None),
      Node(map["c" := 3], None, Some(1), None),
      Node(map[], None, Some(2), Some(2)) ]
  }

  lemma TwoRoutesWellFormed()
    ensures WellFormed(TwoRoutes())
  {
    var t := TwoRoutes();
    assert t[1].children == map["" := 2] && t[3].children == map["c" := 4];
    assert forall n :: 0 <= n < |t| && n != 1 && n != 3 ==> t[n].children == map[];
  }

  lemma OneRouteWellFormed()
    ensures WellFormed(OneRoute())
  {
    var t := OneRoute();
    assert t[2].children == map["c" := 3];
    assert forall n :: 0 <= n < |t| && n != 2 ==> t[n].children == map[];
  }

  /**
    The search as written (lib/routers/router.js:94) switches to a parameter
    edge on backtracking without the non-empty test of line 82. With routes
    `[*, ""]` and `[*, *, "c"]`, keys `["x", "", "c"]` reach the second route, its
    second parameter matching the empty key; without the first route the
    descent refuses the empty key and nothing matches. The strict search
    answers nothing in both tries.
   */
  lemma EmptyPartReachesWildcard()
    ensures WellFormed(TwoRoutes()) && WellFormed(OneRoute())
    ensures Search(TwoRoutes(), ["x", "", "c"], 0, 0, false) == Some(4)
    ensures Search(TwoRoutes(), ["x", "", "c"], 0, 0, true) == None
    ensures Search(OneRoute(), ["x", "", "c"], 0, 0, false) == None
    ensures !MatchesFrom([None, None, Some("c")], ["x", "", "c"], 0, true)
  {
    TwoRoutesWellFormed();
    OneRouteWellFormed();
    var keys := ["x", "", "c"];
    var t1, t2 := TwoRoutes(), OneRoute();
    assert keys[0] == "x" && keys[1] == "" && keys[2] == "c";
    assert Search(t1, keys, 4, 3, false) == Some(4);
    assert Search(t1, keys, 3, 2, false) == Some(4);
    assert Search(t1, keys, 2, 2, false) == None;
    assert Search(t1, keys, 1, 1, false) == Some(4);
    assert Search(t1, keys, 2, 2, true) == None;
    assert Search(t1, keys, 3, 2, true) == Some(4);
    assert Search(t1, keys, 1, 1, true) == None;
    assert Search(t2, keys, 1, 1, false) == None;
    assert [None, None, Some("c")][1] == None && !Admits(None, keys[1], true);
  }
}
