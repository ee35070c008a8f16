/**
  The generic match engine of lib/routers/router.js: an exact-match table from
  key to handler, plus a trie of parameterised routes searched depth first with
  backtracking, preferring a literal edge over the wildcard edge at each depth.

  The trie is an arena: the router's `nodes` sequence holds every node, a node
  is named by its index, and the root is node 0. The source links nodes by
  object reference (`children`, `wild`, `parent`); here those links are indices.
 */
module MatchEngine {
  import opened Wrappers

  /** A trie node (`newNode`): literal edges, the parameter edge, the parent link, the route's handler. */
  datatype Node<E(==), H> = Node(children: map<seq<E>, nat>, wild: Option<nat>, parent: Option<nat>, exit: Option<H>)

  type Tree<E(==), H> = seq<Node<E, H>>

  /** One part of a registered route: a literal key, or `None` for a parameter (the source's `undefined`). */
  type Part<E(==)> = Option<seq<E>>

  /** What a lookup does with a request. */
  datatype Outcome<H> = Destroyed | Handled(handler: H) | Missing(handler: H)

  /** `newNode(parent)`: no edges, no handler. */
  function NewNode<E(==), H>(parent: nat): Node<E, H>
  {
    Node(map[], None, Some(parent), None)
  }

  ghost predicate ChildOk<E, H>(t: Tree<E, H>, n: nat, c: nat)
  {
    n < c < |t| && t[c].parent == Some(n)
  }

  /**
    The shape every trie built by registration has: only the root lacks a
    parent, every edge leads to a later node whose parent is the edge's source,
    no literal edge shares its target with the parameter edge or another literal edge.
   */
  ghost predicate WellFormed<E, H>(t: Tree<E, H>)
  {
    && |t| > 0
    && t[0].parent.None?
    && (forall n {:trigger t[n].parent} :: 0 < n < |t| ==> t[n].parent.Some? && t[n].parent.value < n)
    && (forall n, k {:trigger t[n].children[k]} :: 0 <= n < |t| && k in t[n].children ==>
          ChildOk(t, n, t[n].children[k]) && t[n].wild != Some(t[n].children[k]))
    && (forall n {:trigger t[n].wild} :: 0 <= n < |t| && t[n].wild.Some? ==> ChildOk(t, n, t[n].wild.value))
    && (forall n, k1, k2 {:trigger t[n].children[k1], t[n].children[k2]} ::
          0 <= n < |t| && k1 in t[n].children && k2 in t[n].children && k1 != k2 ==>
          t[n].children[k1] != t[n].children[k2])
  }

  /** Number of edges from the root down to `n`. */
  ghost function Depth<E, H>(t: Tree<E, H>, n: nat): nat
    requires WellFormed(t) && n < |t|
    decreases n
  {
    match t[n].parent
    case None => 0
    case Some(p) => 1 + Depth(t, p)
  }

  /** The node reached from `n` along one route part. */
  function Step<E(==), H>(t: Tree<E, H>, n: nat, p: Part<E>): (c: Option<nat>)
    requires WellFormed(t) && n < |t|
    ensures c.Some? ==> ChildOk(t, n, c.value)
  {
    match p
    case None => t[n].wild
    case Some(k) => if k in t[n].children then Some(t[n].children[k]) else None
  }

  /** The node reached from `n` along a whole route, if the trie has that path. */
  ghost function Walk<E, H>(t: Tree<E, H>, n: nat, r: seq<Part<E>>): (m: Option<nat>)
    requires WellFormed(t) && n < |t|
    ensures m.Some? ==> m.value < |t|
    decreases |r|
  {
    if r == [] then Some(n)
    else
      match Step(t, n, r[0])
      case None => None
      case Some(c) => Walk(t, c, r[1..])
  }

  /** The handler registered for route `r` below `n`. */
  ghost function ExitAt<E, H>(t: Tree<E, H>, n: nat, r: seq<Part<E>>): Option<H>
    requires WellFormed(t) && n < |t|
  {
    match Walk(t, n, r)
    case None => None
    case Some(m) => t[m].exit
  }

  /** The handler registered for route `r`. */
  ghost function RouteAt<E, H>(t: Tree<E, H>, r: seq<Part<E>>): Option<H>
    requires WellFormed(t)
  {
    ExitAt(t, 0, r)
  }

  function OrElse<T>(a: Option<T>, b: Option<T>): Option<T>
  {
    if a.Some? then a else b
  }

  function ExitOf<E(==), H>(t: Tree<E, H>, r: Option<nat>): Option<H>
    requires r.Some? ==> r.value < |t|
  {
    if r.Some? then t[r.value].exit else None
  }

  /**
    Whether the parameter edge may be tried for `key` after the literal edge
    failed. The search of lib/routers/router.js:94 tries it for any key (`strict`
    false), although its forward descent at line 82 refuses an empty key;
    `strict` applies that same rule on backtracking.
   */
  predicate RetryWild<E>(key: seq<E>, strict: bool)
  {
    !strict || key != []
  }

  /**
    The search `dynamicHandler` performs, as a recursive definition: the node
    whose handler answers `keys[i..]` from node `n`. The literal edge is tried
    first; the parameter edge is tried for a non-empty key when there is no
    literal edge, and after the literal edge's whole subtree failed.
   */
  ghost function Search<E, H>(t: Tree<E, H>, keys: seq<seq<E>>, n: nat, i: nat, strict: bool): (r: Option<nat>)
    requires WellFormed(t) && n < |t| && i <= |keys|
    ensures r.Some? ==> r.value < |t| && t[r.value].exit.Some?
    decreases |keys| - i
  {
    if i == |keys| then (if t[n].exit.Some? then Some(n) else None)
    else
      var key := keys[i];
      if key in t[n].children then
        OrElse(Search(t, keys, t[n].children[key], i + 1, strict),
               if t[n].wild.Some? && RetryWild(key, strict) then Search(t, keys, t[n].wild.value, i + 1, strict) else None)
      else if t[n].wild.Some? && key != [] then Search(t, keys, t[n].wild.value, i + 1, strict)
      else None
  }

  /**
    What the search still tries once the subtree of `n` has failed: climbing
    back towards the root, the parameter edge beside each literal edge on the
    way, at that edge's depth.
   */
  ghost function After<E, H>(t: Tree<E, H>, keys: seq<seq<E>>, n: nat, strict: bool): Option<nat>
    requires WellFormed(t) && n < |t| && Depth(t, n) <= |keys|
    decreases n
  {
    match t[n].parent
    case None => None
    case Some(p) =>
      if t[p].wild == Some(n) then After(t, keys, p, strict)
      else if t[p].wild.Some? && RetryWild(keys[Depth(t, n) - 1], strict) then
        OrElse(Search(t, keys, t[p].wild.value, Depth(t, n), strict), After(t, keys, p, strict))
      else After(t, keys, p, strict)
  }

  /** Nodes a failing `Search` visits: the termination measure of the search loop. */
  ghost function Visits<E, H>(t: Tree<E, H>, keys: seq<seq<E>>, n: nat, i: nat, strict: bool): nat
    requires WellFormed(t) && n < |t| && i <= |keys|
    decreases |keys| - i
  {
    if i == |keys| then 1
    else
      var key := keys[i];
      if key in t[n].children then
        1 + Visits(t, keys, t[n].children[key], i + 1, strict)
        + (if t[n].wild.Some? && RetryWild(key, strict) then Visits(t, keys, t[n].wild.value, i + 1, strict) else 0)
      else if t[n].wild.Some? && key != [] then 1 + Visits(t, keys, t[n].wild.value, i + 1, strict)
      else 1
  }

  /** Nodes a failing `After` visits. */
  ghost function AfterVisits<E, H>(t: Tree<E, H>, keys: seq<seq<E>>, n: nat, strict: bool): nat
    requires WellFormed(t) && n < |t| && Depth(t, n) <= |keys|
    decreases n
  {
    match t[n].parent
    case None => 0
    case Some(p) =>
      if t[p].wild == Some(n) then AfterVisits(t, keys, p, strict)
      else if t[p].wild.Some? && RetryWild(keys[Depth(t, n) - 1], strict) then
        Visits(t, keys, t[p].wild.value, Depth(t, n), strict) + AfterVisits(t, keys, p, strict)
      else AfterVisits(t, keys, p, strict)
  }


  /** One step of the forward descent keeps the search goal and shrinks the measure. */
  lemma Descend<E, H>(t: Tree<E, H>, keys: seq<seq<E>>, n: nat, i: nat, strict: bool, c: nat)
    requires WellFormed(t) && n < |t| && i < |keys| && i == Depth(t, n)
    requires (keys[i] in t[n].children && c == t[n].children[keys[i]])
          || (keys[i] !in t[n].children && t[n].wild == Some(c) && keys[i] != [])
    ensures c < |t| && Depth(t, c) == i + 1
    ensures OrElse(Search(t, keys, c, i + 1, strict), After(t, keys, c, strict))
         == OrElse(Search(t, keys, n, i, strict), After(t, keys, n, strict))
    ensures Visits(t, keys, c, i + 1, strict) + AfterVisits(t, keys, c, strict)
          < Visits(t, keys, n, i, strict) + AfterVisits(t, keys, n, strict)
  {
  }

  /** Climbing out of a parameter edge changes neither the goal nor the measure. */
  lemma ClimbWild<E, H>(t: Tree<E, H>, keys: seq<seq<E>>, n: nat, strict: bool)
    requires WellFormed(t) && n < |t| && Depth(t, n) <= |keys|
    requires t[n].parent.Some? && t[t[n].parent.value].wild == Some(n)
    ensures Depth(t, t[n].parent.value) == Depth(t, n) - 1
    ensures After(t, keys, t[n].parent.value, strict) == After(t, keys, n, strict)
    ensures AfterVisits(t, keys, t[n].parent.value, strict) == AfterVisits(t, keys, n, strict)
  {
  }

  /** Climbing out of a literal edge: the sibling parameter edge is tried next, when allowed. */
  lemma ClimbLiteral<E, H>(t: Tree<E, H>, keys: seq<seq<E>>, n: nat, strict: bool)
    requires WellFormed(t) && n < |t| && Depth(t, n) <= |keys|
    requires t[n].parent.Some? && t[t[n].parent.value].wild != Some(n)
    ensures Depth(t, n) >= 1 && Depth(t, t[n].parent.value) == Depth(t, n) - 1
    ensures var p := t[n].parent.value;
      if t[p].wild.Some? && RetryWild(keys[Depth(t, n) - 1], strict) then
        var w := t[p].wild.value;
        && w < |t| && Depth(t, w) == Depth(t, n)
        && After(t, keys, n, strict) == OrElse(Search(t, keys, w, Depth(t, n), strict), After(t, keys, w, strict))
        && AfterVisits(t, keys, n, strict) == Visits(t, keys, w, Depth(t, n), strict) + AfterVisits(t, keys, w, strict)
      else
        && After(t, keys, n, strict) == After(t, keys, p, strict)
        && AfterVisits(t, keys, n, strict) == AfterVisits(t, keys, p, strict)
  {
  }

  /**
    `dynamicHandler`: the labelled search/attempt loop of lib/routers/router.js,
    descending greedily and backtracking through parent links. It returns the
    handler `Search` defines, so it terminates and `i` is the depth of `node`
    at every restart.
   */
  method DynamicHandler<E(==), H>(t: Tree<E, H>, keys: seq<seq<E>>, strict: bool) returns (r: Option<H>)
    requires WellFormed(t)
    ensures r == ExitOf(t, Search(t, keys, 0, 0, strict))
  {
    ghost var goal := Search(t, keys, 0, 0, strict);
    var len := |keys|;
    var node: nat := 0;
    var i: nat := 0;
    label search: while true
      invariant node < |t| && i == Depth(t, node) && i <= len
      invariant OrElse(Search(t, keys, node, i, strict), After(t, keys, node, strict)) == goal
      decreases Visits(t, keys, node, i, strict) + AfterVisits(t, keys, node, strict)
    {
      ghost var bound := Visits(t, keys, node, i, strict) + AfterVisits(t, keys, node, strict);
      label attempt: {
        while i < len
          invariant node < |t| && i == Depth(t, node) && i <= len
          invariant OrElse(Search(t, keys, node, i, strict), After(t, keys, node, strict)) == goal
          invariant Visits(t, keys, node, i, strict) + AfterVisits(t, keys, node, strict) <= bound
        {
          var key := keys[i];
          if key in t[node].children {
            Descend(t, keys, node, i, strict, t[node].children[key]);
            node := t[node].children[key];
          } else if t[node].wild.Some? && key != [] {
            Descend(t, keys, node, i, strict, t[node].wild.value);
            node := t[node].wild.value;
          } else {
            break attempt;
          }
          i := i + 1;
        }
        if t[node].exit.Some? {
          return t[node].exit;
        }
      }
      var next;
      next, i := Backtrack(t, keys, strict, node, i);
      if next.None? {
        return None;
      }
      node := next.value;
    }
  }

  /**
    The backtracking half of `dynamicHandler` (lib/routers/router.js:87-100):
    climbs out of parameter edges, and out of literal edges until one has a
    sibling parameter edge to try; `None` when the root is reached.
   */
  method Backtrack<E(==), H>(t: Tree<E, H>, keys: seq<seq<E>>, strict: bool, n: nat, i0: nat)
      returns (next: Option<nat>, i: nat)
    requires WellFormed(t) && n < |t| && i0 == Depth(t, n) <= |keys|
    ensures next.None? ==> After(t, keys, n, strict) == None
    ensures next.Some? ==>
      && next.value < |t| && i == Depth(t, next.value) <= |keys|
      && OrElse(Search(t, keys, next.value, i, strict), After(t, keys, next.value, strict)) == After(t, keys, n, strict)
      && Visits(t, keys, next.value, i, strict) + AfterVisits(t, keys, next.value, strict) <= AfterVisits(t, keys, n, strict)
  {
    var node: nat := n;
    i := i0;
    while t[node].parent.Some?
      invariant node < |t| && i == Depth(t, node) <= |keys|
      invariant After(t, keys, node, strict) == After(t, keys, n, strict)
      invariant AfterVisits(t, keys, node, strict) <= AfterVisits(t, keys, n, strict)
      decreases node
    {
      while t[t[node].parent.value].wild == Some(node)
        invariant node < |t| && i == Depth(t, node) <= |keys| && t[node].parent.Some?
        invariant After(t, keys, node, strict) == After(t, keys, n, strict)
        invariant AfterVisits(t, keys, node, strict) <= AfterVisits(t, keys, n, strict)
        decreases node
      {
        ClimbWild(t, keys, node, strict);
        node := t[node].parent.value;
        i := i - 1;
        if t[node].parent.None? {
          return None, i;
        }
      }
      ClimbLiteral(t, keys, node, strict);
      node := t[node].parent.value;
      if t[node].wild.Some? && RetryWild(keys[i - 1], strict) {
        return t[node].wild, i;
      }
      i := i - 1;
    }
    return None, i;
  }

  // Registration: growing the trie and setting a handler.

  /**
    The trie after `node.wild = newNode(node)` or `node.children.set(key,
    newNode(node))`: a fresh leaf below `n` along part `p`.
   */
  function Grow<E(==), H>(t: Tree<E, H>, n: nat, p: Part<E>): Tree<E, H>
    requires n < |t|
  {
    match p
    case None => t[n := t[n].(wild := Some(|t|))] + [NewNode(n)]
    case Some(k) => t[n := t[n].(children := t[n].children[k := |t|])] + [NewNode(n)]
  }

  /** The trie after `node.exit = h`. */
  function SetExit<E(==), H>(t: Tree<E, H>, m: nat, h: H): Tree<E, H>
    requires m < |t|
  {
    t[m := t[m].(exit := Some(h))]
  }

  lemma GrowWellFormed<E, H>(t: Tree<E, H>, n: nat, p: Part<E>)
    requires WellFormed(t) && n < |t| && Step(t, n, p).None?
    ensures WellFormed(Grow(t, n, p))
    ensures Step(Grow(t, n, p), n, p) == Some(|t|)
  {
    var g := Grow(t, n, p);
    assert |g| == |t| + 1 && g[|t|] == Node(map[], None, Some(n), None);
    assert forall m :: 0 <= m < |t| ==> g[m].parent == t[m].parent;
    assert forall m :: 0 <= m < |t| && m != n ==> g[m] == t[m];
    forall m, k | 0 <= m < |g| && k in g[m].children
      ensures ChildOk(g, m, g[m].children[k]) && g[m].wild != Some(g[m].children[k])
    {
      if m == n && p == Some(k) {
        assert g[m].children[k] == |t|;
      } else {
        assert k in t[m].children && g[m].children[k] == t[m].children[k];
      }
    }
    forall m | 0 <= m < |g| && g[m].wild.Some?
      ensures ChildOk(g, m, g[m].wild.value)
    {
      if m != n || p.Some? {
        assert g[m].wild == t[m].wild;
      }
    }
    forall m, k1, k2 | 0 <= m < |g| && k1 in g[m].children && k2 in g[m].children && k1 != k2
      ensures g[m].children[k1] != g[m].children[k2]
    {
      if m == n && p.Some? {
        if k1 != p.value && k2 != p.value {
          assert g[m].children[k1] == t[m].children[k1];
        }
      }
    }
  }

  /** Paths that exist keep their target when a leaf is added. */
  lemma {:induction false} GrowWalk<E, H>(t: Tree<E, H>, n: nat, p: Part<E>, m: nat, r: seq<Part<E>>)
    requires WellFormed(t) && n < |t| && Step(t, n, p).None? && m < |t|
    requires Walk(t, m, r).Some?
    ensures WellFormed(Grow(t, n, p)) && Walk(Grow(t, n, p), m, r) == Walk(t, m, r)
    decreases |r|
  {
    GrowWellFormed(t, n, p);
    if r != [] {
      var c := Step(t, m, r[0]).value;
      assert Step(Grow(t, n, p), m, r[0]) == Some(c);
      GrowWalk(t, n, p, c, r[1..]);
    }
  }

  /** Adding a leaf registers no handler: every route keeps its handler. */
  lemma {:induction false} GrowExitAt<E, H>(t: Tree<E, H>, n: nat, p: Part<E>, m: nat, r: seq<Part<E>>)
    requires WellFormed(t) && n < |t| && Step(t, n, p).None? && m < |t|
    ensures WellFormed(Grow(t, n, p)) && ExitAt(Grow(t, n, p), m, r) == ExitAt(t, m, r)
    decreases |r|
  {
    GrowWellFormed(t, n, p);
    var g := Grow(t, n, p);
    if r != [] {
      match Step(t, m, r[0])
      case Some(c) =>
        assert Step(g, m, r[0]) == Some(c);
        GrowExitAt(t, n, p, c, r[1..]);
      case None =>
        assert ExitAt(t, m, r) == None;
        match Step(g, m, r[0])
        case None =>
        case Some(leaf) =>
          assert leaf == |t| && g[leaf] == NewNode(n);
          assert Walk(g, m, r) == Walk(g, leaf, r[1..]);
          if r[1..] != [] {
            assert Step(g, leaf, r[1..][0]).None?;
            assert Walk(g, leaf, r[1..]) == None;
          } else {
            assert Walk(g, leaf, r[1..]) == Some(leaf);
          }
    }
  }

  lemma {:induction false} WalkSnoc<E, H>(t: Tree<E, H>, n: nat, r: seq<Part<E>>, p: Part<E>)
    requires WellFormed(t) && n < |t|
    ensures Walk(t, n, r + [p]) == (match Walk(t, n, r) case None => None case Some(m) => Step(t, m, p))
    decreases |r|
  {
    if r == [] {
      assert r + [p] == [p];
    } else {
      assert (r + [p])[0] == r[0];
      assert (r + [p])[1..] == r[1..] + [p];
      match Step(t, n, r[0])
      case None =>
      case Some(c) => WalkSnoc(t, c, r[1..], p);
    }
  }

  lemma {:induction false} WalkDepth<E, H>(t: Tree<E, H>, n: nat, r: seq<Part<E>>)
    requires WellFormed(t) && n < |t| && Walk(t, n, r).Some?
    ensures Depth(t, Walk(t, n, r).value) == Depth(t, n) + |r|
    decreases |r|
  {
    if r != [] {
      WalkDepth(t, Step(t, n, r[0]).value, r[1..]);
    }
  }

  /** Distinct routes lead to distinct nodes, so a node holds the handler of one route only. */
  lemma {:induction false} WalkInjective<E, H>(t: Tree<E, H>, r1: seq<Part<E>>, r2: seq<Part<E>>)
    requires WellFormed(t) && Walk(t, 0, r1).Some? && Walk(t, 0, r1) == Walk(t, 0, r2)
    ensures r1 == r2
    decreases |r1|
  {
    WalkDepth(t, 0, r1);
    WalkDepth(t, 0, r2);
    if r1 != [] {
      var a1, p1 := r1[..|r1| - 1], r1[|r1| - 1];
      var a2, p2 := r2[..|r2| - 1], r2[|r2| - 1];
      assert r1 == a1 + [p1] && r2 == a2 + [p2];
      WalkSnoc(t, 0, a1, p1);
      WalkSnoc(t, 0, a2, p2);
      var m1, m2 := Walk(t, 0, a1).value, Walk(t, 0, a2).value;
      assert t[Walk(t, 0, r1).value].parent == Some(m1) == Some(m2);
      WalkInjective(t, a1, a2);
      StepInjective(t, m1, p1, p2);
    }
  }

  /** Distinct parts lead out of a node along distinct edges. */
  lemma StepInjective<E, H>(t: Tree<E, H>, m: nat, p1: Part<E>, p2: Part<E>)
    requires WellFormed(t) && m < |t| && Step(t, m, p1).Some? && Step(t, m, p1) == Step(t, m, p2)
    ensures p1 == p2
  {
  }

  lemma {:induction false} SetExitWalk<E, H>(t: Tree<E, H>, m: nat, h: H, n: nat, r: seq<Part<E>>)
    requires WellFormed(t) && m < |t| && n < |t|
    ensures WellFormed(SetExit(t, m, h)) && Walk(SetExit(t, m, h), n, r) == Walk(t, n, r)
    decreases |r|
  {
    if r != [] {
      match Step(t, n, r[0])
      case None =>
      case Some(c) => SetExitWalk(t, m, h, c, r[1..]);
    }
  }

  /** Setting the handler of the node at the end of route `r0` registers `r0` and nothing else. */
  lemma SetExitRoute<E, H>(t: Tree<E, H>, r0: seq<Part<E>>, m: nat, h: H, r: seq<Part<E>>)
    requires WellFormed(t) && Walk(t, 0, r0) == Some(m)
    ensures WellFormed(SetExit(t, m, h))
    ensures RouteAt(SetExit(t, m, h), r) == if r == r0 then Some(h) else RouteAt(t, r)
  {
    SetExitWalk(t, m, h, 0, r);
    if r != r0 && Walk(t, 0, r) == Some(m) {
      WalkInjective(t, r, r0);
    }
  }

  /** Walking one part, then the rest. */
  lemma WalkCons<E, H>(t: Tree<E, H>, n: nat, c: nat, p: Part<E>, r: seq<Part<E>>)
    requires WellFormed(t) && n < |t| && Step(t, n, p) == Some(c)
    ensures Walk(t, n, [p] + r) == Walk(t, c, r)
  {
    assert ([p] + r)[0] == p && ([p] + r)[1..] == r;
  }

  /** Following an existing edge extends the walked prefix by one part. */
  lemma FollowStep<E, H>(t: Tree<E, H>, r: seq<Part<E>>, n: nat, p: Part<E>)
    requires WellFormed(t) && Walk(t, 0, r) == Some(n) && Step(t, n, p).Some?
    ensures Walk(t, 0, r + [p]) == Step(t, n, p)
  {
    WalkSnoc(t, 0, r, p);
  }

  /** Creating the missing edge extends the walked prefix by one part. */
  lemma GrowStep<E, H>(t: Tree<E, H>, r: seq<Part<E>>, n: nat, p: Part<E>)
    requires WellFormed(t) && Walk(t, 0, r) == Some(n) && Step(t, n, p).None?
    ensures WellFormed(Grow(t, n, p))
    ensures Walk(Grow(t, n, p), 0, r + [p]) == Some(|t|)
  {
    GrowWellFormed(t, n, p);
    GrowWalk(t, n, p, 0, r);
    WalkSnoc(Grow(t, n, p), 0, r, p);
  }

  /**
    The router of lib/routers/router.js: the exact-match table, the trie, and
    the missing-route record with its one-time `changed` flag.
   */
  class Router<E(==,!new), H> {
    var statics: map<seq<E>, H>
    var nodes: Tree<E, H>
    var missing: H
    var changed: bool

    ghost predicate Valid()
      reads this
    {
      WellFormed(nodes)
    }

    /** A router with empty tables: the trie is a lone root. */
    constructor(missingHandler: H)
      ensures Valid()
      ensures statics == map[] && nodes == [Node(map[], None, None, None)]
      ensures missing == missingHandler && !changed
      ensures forall r :: RouteAt(nodes, r) == None
    {
      statics := map[];
      nodes := [Node(map[], None, None, None)];
      missing := missingHandler;
      changed := false;
      new;
      forall r: seq<Part<E>> ensures RouteAt(nodes, r) == None {
        if r != [] {
          assert Step(nodes, 0, r[0]).None?;
        }
      }
    }

    /** `addStaticRoute`: refuses a key already present, otherwise maps it to `handler`. */
    method AddStaticRoute(key: seq<E>, handler: H) returns (ok: bool)
      modifies this`statics
      ensures ok <==> key !in old(statics)
      ensures statics == if ok then old(statics)[key := handler] else old(statics)
    {
      if key in statics {
        return false;
      }
      statics := statics[key := handler];
      return true;
    }

    /**
      `addDynamicRoute`: walks `parts` from the root, creating the missing
      literal and parameter edges, then refuses a route that already has a
      handler, otherwise sets it. Only the route `parts` gains a handler.
     */
    method AddDynamicRoute(parts: seq<Part<E>>, handler: H) returns (ok: bool)
      requires Valid()
      modifies this`nodes
      ensures Valid()
      ensures ok <==> RouteAt(old(nodes), parts).None?
      ensures forall r :: RouteAt(nodes, r) == if ok && r == parts then Some(handler) else RouteAt(old(nodes), r)
    {
      ghost var t0 := nodes;
      var node := Extend(parts);
      var t := nodes;
      if t[node].exit.Some? {
        return false;
      }
      SetExitRoute(t, parts, node, handler, []);
      var t1 := SetExit(t, node, handler);
      forall r ensures RouteAt(t1, r) == if r == parts then Some(handler) else RouteAt(t0, r) {
        SetExitRoute(t, parts, node, handler, r);
      }
      nodes := t1;
      return true;
    }

    /**
      The loop of `addDynamicRoute` (lib/routers/router.js:39-44): follows each
      part's edge, creating it when missing, and returns the node at the end
      of the path; no route gains or loses a handler.
     */
    method Extend(parts: seq<Part<E>>) returns (node: nat)
      requires Valid()
      modifies this`nodes
      ensures Valid() && node < |nodes|
      ensures Walk(nodes, 0, parts) == Some(node)
      ensures forall r :: RouteAt(nodes, r) == RouteAt(old(nodes), r)
    {
      var t := nodes;
      ghost var t0 := nodes;
      node := 0;
      var j := 0;
      while j < |parts|
        invariant 0 <= j <= |parts|
        invariant WellFormed(t) && WellFormed(t0) && node < |t|
        invariant Walk(t, 0, parts[..j]) == Some(node)
        invariant forall r: seq<Part<E>> :: RouteAt(t, r) == RouteAt(t0, r)
      {
        assert parts[..j + 1] == parts[..j] + [parts[j]];
        var next := Step(t, node, parts[j]);
        if next.Some? {
          FollowStep(t, parts[..j], node, parts[j]);
          node := next.value;
        } else {
          GrowStep(t, parts[..j], node, parts[j]);
          var t1 := Grow(t, node, parts[j]);
          forall r ensures RouteAt(t1, r) == RouteAt(t0, r) {
            GrowExitAt(t, node, parts[j], 0, r);
          }
          t, node := t1, |t|;
        }
        j := j + 1;
      }
      assert parts[..j] == parts;
      nodes := t;
    }

    /** `setMissingRoute`: the first call replaces the missing handler; later calls change nothing. */
    method SetMissingRoute(handler: H) returns (ok: bool)
      modifies this`missing, this`changed
      ensures ok <==> !old(changed)
      ensures changed
      ensures missing == if ok then handler else old(missing)
    {
      if changed {
        return false;
      }
      changed := true;
      missing := handler;
      return true;
    }

    /**
      The request handler `makeRouter` builds, given the request's static key:
      an empty key destroys the request, an exact-table hit wins, otherwise the
      trie is searched with the dynamic keys, and the missing handler answers
      when there are none or nothing matches.
     */
    method Lookup(key: seq<E>, dynamicKeys: seq<E> -> Option<seq<seq<E>>>) returns (o: Outcome<H>)
      requires Valid()
      ensures key == [] <==> o.Destroyed?
      ensures key != [] && key in statics ==> o == Handled(statics[key])
      ensures key != [] && key !in statics && dynamicKeys(key).None? ==> o == Missing(missing)
      ensures key != [] && key !in statics && dynamicKeys(key).Some? ==>
        var found := Search(nodes, dynamicKeys(key).value, 0, 0, false);
        o == if found.Some? then Handled(nodes[found.value].exit.value) else Missing(missing)
    {
      if key == [] {
        return Destroyed;
      }
      if key in statics {
        return Handled(statics[key]);
      }
      var keys := dynamicKeys(key);
      if keys.Some? {
        var h := DynamicHandler(nodes, keys.value, false);
        if h.Some? {
          return Handled(h.value);
        }
      }
      return Missing(missing);
    }
  }
}
