/**
  The older match engine of lib/router.js. It searches the same kind of trie
  as lib/routers/router.js, but consumes the parts from the last one down to
  the first, lets a parameter edge take any part (the empty one included),
  and asks each handler it reaches whether it takes the request: a handler
  that declines sends the search on backtracking. `accepts` stands for the
  handlers' boolean answers. The source defines no registration here, so the
  trie is an input.
 */
module LegacyEngine {
  import opened Wrappers
  import opened MatchEngine

  /** What the request handler of `makeHandler` does with a request. */
  datatype Answer<H> = Taken(handler: H) | MissingRuns

  /** Route `r` matches the first `k` parts read from `parts[k - 1]` down to `parts[0]`; a parameter matches any part. */
  ghost predicate MatchesDown<E>(r: seq<Part<E>>, parts: seq<seq<E>>, k: nat)
  {
    k <= |parts| && |r| == k && forall j :: 0 <= j < |r| ==> r[j].None? || r[j] == Some(parts[k - 1 - j])
  }

  /**
    The node whose handler takes the request when the search starts at `n`
    with `parts[..k]` still to consume: literal edge first, then the parameter
    edge, and a handler that declines counts as no match.
   */
  ghost function Search<E, H>(t: Tree<E, H>, parts: seq<seq<E>>, n: nat, k: nat, accepts: H -> bool): (r: Option<nat>)
    requires WellFormed(t) && n < |t| && k <= |parts|
    ensures r.Some? ==> r.value < |t| && t[r.value].exit.Some? && accepts(t[r.value].exit.value)
    decreases k
  {
    if k == 0 then (if t[n].exit.Some? && accepts(t[n].exit.value) then Some(n) else None)
    else
      var key := parts[k - 1];
      if key in t[n].children then
        OrElse(Search(t, parts, t[n].children[key], k - 1, accepts),
               if t[n].wild.Some? then Search(t, parts, t[n].wild.value, k - 1, accepts) else None)
      else if t[n].wild.Some? then Search(t, parts, t[n].wild.value, k - 1, accepts)
      else None
  }

  /** What the search still tries once the subtree of `n` has failed: the parameter edges beside the literal edges above `n`. */
  ghost function After<E, H>(t: Tree<E, H>, parts: seq<seq<E>>, n: nat, accepts: H -> bool): Option<nat>
    requires WellFormed(t) && n < |t| && Depth(t, n) <= |parts|
    decreases n
  {
    match t[n].parent
    case None => None
    case Some(p) =>
      if t[p].wild == Some(n) then After(t, parts, p, accepts)
      else if t[p].wild.Some? then
        OrElse(Search(t, parts, t[p].wild.value, |parts| - Depth(t, n), accepts), After(t, parts, p, accepts))
      else After(t, parts, p, accepts)
  }

  /** Nodes a failing `Search` visits. */
  ghost function Visits<E, H>(t: Tree<E, H>, parts: seq<seq<E>>, n: nat, k: nat): nat
    requires WellFormed(t) && n < |t| && k <= |parts|
    decreases k
  {
    if k == 0 then 1
    else
      var key := parts[k - 1];
      if key in t[n].children then
        1 + Visits(t, parts, t[n].children[key], k - 1)
        + (if t[n].wild.Some? then Visits(t, parts, t[n].wild.value, k - 1) else 0)
      else if t[n].wild.Some? then 1 + Visits(t, parts, t[n].wild.value, k - 1)
      else 1
  }

  /** Nodes a failing `After` visits. */
  ghost function AfterVisits<E, H>(t: Tree<E, H>, parts: seq<seq<E>>, n: nat): nat
    requires WellFormed(t) && n < |t| && Depth(t, n) <= |parts|
    decreases n
  {
    match t[n].parent
    case None => 0
    case Some(p) =>
      if t[p].wild == Some(n) then AfterVisits(t, parts, p)
      else if t[p].wild.Some? then Visits(t, parts, t[p].wild.value, |parts| - Depth(t, n)) + AfterVisits(t, parts, p)
      else AfterVisits(t, parts, p)
  }

  /** What a search from `n` with `parts[..k]` left finds, the alternatives above `n` included. */
  ghost function Pending<E, H>(t: Tree<E, H>, parts: seq<seq<E>>, n: nat, k: nat, accepts: H -> bool): Option<nat>
    requires WellFormed(t) && n < |t| && k + Depth(t, n) == |parts|
  {
    OrElse(Search(t, parts, n, k, accepts), After(t, parts, n, accepts))
  }

  /** Nodes `Pending` still visits when everything fails: the termination measure of the search. */
  ghost function Work<E, H>(t: Tree<E, H>, parts: seq<seq<E>>, n: nat, k: nat): nat
    requires WellFormed(t) && n < |t| && k + Depth(t, n) == |parts|
  {
    Visits(t, parts, n, k) + AfterVisits(t, parts, n)
  }

  /** One step of the descent keeps the goal and shrinks the measure. */
  lemma Descend<E, H>(t: Tree<E, H>, parts: seq<seq<E>>, n: nat, k: nat, accepts: H -> bool, c: nat)
    requires WellFormed(t) && n < |t| && 0 < k && k + Depth(t, n) == |parts|
    requires (parts[k - 1] in t[n].children && c == t[n].children[parts[k - 1]])
          || (parts[k - 1] !in t[n].children && t[n].wild == Some(c))
    ensures c < |t| && Depth(t, c) == Depth(t, n) + 1
    ensures OrElse(Search(t, parts, c, k - 1, accepts), After(t, parts, c, accepts))
         == OrElse(Search(t, parts, n, k, accepts), After(t, parts, n, accepts))
    ensures Visits(t, parts, c, k - 1) + AfterVisits(t, parts, c)
          < Visits(t, parts, n, k) + AfterVisits(t, parts, n)
  {
  }

  /** A part with neither a literal edge nor a parameter edge ends the attempt without a match. */
  lemma DeadEnd<E, H>(t: Tree<E, H>, parts: seq<seq<E>>, n: nat, k: nat, accepts: H -> bool)
    requires WellFormed(t) && n < |t| && 0 < k <= |parts|
    requires parts[k - 1] !in t[n].children && t[n].wild.None?
    ensures Search(t, parts, n, k, accepts) == None && Visits(t, parts, n, k) == 1
  {
  }

  /** `node.children[key] || node.wild`: the literal edge for `key`, else the parameter edge. */
  function NextNode<E, H>(t: Tree<E, H>, n: nat, key: seq<E>): (c: Option<nat>)
    requires WellFormed(t) && n < |t|
    ensures c.Some? ==> ChildOk(t, n, c.value)
    ensures c.None? <==> key !in t[n].children && t[n].wild.None?
  {
    if key in t[n].children then Some(t[n].children[key]) else t[n].wild
  }

  /** Following `NextNode` keeps the goal and shrinks the measure; finding no edge ends the attempt without a match. */
  lemma Advance<E, H>(t: Tree<E, H>, parts: seq<seq<E>>, n: nat, k: nat, accepts: H -> bool, next: Option<nat>)
    requires WellFormed(t) && n < |t| && 0 < k && k + Depth(t, n) == |parts|
    requires next == NextNode(t, n, parts[k - 1])
    ensures next.None? ==> Pending(t, parts, n, k, accepts) == After(t, parts, n, accepts)
    ensures next.None? ==> Work(t, parts, n, k) == 1 + AfterVisits(t, parts, n)
    ensures next.Some? ==>
      && next.value < |t| && Depth(t, next.value) == Depth(t, n) + 1
      && Pending(t, parts, next.value, k - 1, accepts) == Pending(t, parts, n, k, accepts)
      && Work(t, parts, next.value, k - 1) < Work(t, parts, n, k)
  {
    if next.Some? {
      Descend(t, parts, n, k, accepts, next.value);
    } else {
      DeadEnd(t, parts, n, k, accepts);
    }
  }

  /** With every part consumed, the node's own handler decides. */
  lemma Arrive<E, H>(t: Tree<E, H>, parts: seq<seq<E>>, n: nat, accepts: H -> bool)
    requires WellFormed(t) && n < |t|
    ensures Search(t, parts, n, 0, accepts) == if t[n].exit.Some? && accepts(t[n].exit.value) then Some(n) else None
    ensures Visits(t, parts, n, 0) == 1
  {
  }

  lemma ClimbWild<E, H>(t: Tree<E, H>, parts: seq<seq<E>>, n: nat, accepts: H -> bool)
    requires WellFormed(t) && n < |t| && Depth(t, n) <= |parts|
    requires t[n].parent.Some? && t[t[n].parent.value].wild == Some(n)
    ensures Depth(t, t[n].parent.value) == Depth(t, n) - 1
    ensures After(t, parts, t[n].parent.value, accepts) == After(t, parts, n, accepts)
    ensures AfterVisits(t, parts, t[n].parent.value) == AfterVisits(t, parts, n)
  {
  }

  /** Leaving a literal child of a node with a parameter edge: that edge is searched next, at the same depth. */
  lemma ClimbToWild<E, H>(t: Tree<E, H>, parts: seq<seq<E>>, n: nat, p: nat, w: nat, accepts: H -> bool)
    requires WellFormed(t) && n < |t| && Depth(t, n) <= |parts|
    requires t[n].parent == Some(p) && t[p].wild == Some(w) && w != n
    ensures w < |t| && Depth(t, w) == Depth(t, n) == Depth(t, p) + 1
    ensures After(t, parts, n, accepts) == OrElse(Search(t, parts, w, |parts| - Depth(t, n), accepts), After(t, parts, w, accepts))
    ensures AfterVisits(t, parts, n) == Visits(t, parts, w, |parts| - Depth(t, n)) + AfterVisits(t, parts, w)
  {
    assert ChildOk(t, p, w);
  }

  /** Leaving a literal child of a node without a parameter edge leaves nothing to try at that level. */
  lemma ClimbPast<E, H>(t: Tree<E, H>, parts: seq<seq<E>>, n: nat, accepts: H -> bool)
    requires WellFormed(t) && n < |t| && Depth(t, n) <= |parts|
    requires t[n].parent.Some? && t[t[n].parent.value].wild.None?
    ensures Depth(t, n) >= 1 && Depth(t, t[n].parent.value) == Depth(t, n) - 1
    ensures After(t, parts, n, accepts) == After(t, parts, t[n].parent.value, accepts)
    ensures AfterVisits(t, parts, n) == AfterVisits(t, parts, t[n].parent.value)
  {
  }

  /**
    `dynamicHandler` of lib/router.js: the search/attempt loop pre-decrements
    `i` to read the parts from the end, and at every restart
    `i + depth(node) == parts.length`. The node returned is the one whose
    handler took the request; `None` means the missing handler runs.
   */
  method DynamicHandler<E(==), H>(t: Tree<E, H>, parts: seq<seq<E>>, accepts: H -> bool) returns (r: Option<nat>)
    requires WellFormed(t)
    ensures r == Search(t, parts, 0, |parts|, accepts)
  {
    ghost var goal := Search(t, parts, 0, |parts|, accepts);
    var node: nat := 0;
    var i: int := |parts|;
    while true
      invariant node < |t| && 0 <= i && i + Depth(t, node) == |parts|
      invariant OrElse(Search(t, parts, node, i, accepts), After(t, parts, node, accepts)) == goal
      decreases Visits(t, parts, node, i) + AfterVisits(t, parts, node)
    {
      var found, failed, j := Attempt(t, parts, accepts, node, i);
      if found {
        return Some(failed);
      }
      var next;
      next, i := Backtrack(t, parts, accepts, failed, j);
      if next.None? {
        return None;
      }
      node := next.value;
    }
  }

  /**
    The `while (--i >= 0)` loop of an attempt: descends from `n` through
    `parts[i0 - 1]` down to `parts[0]`, literal edge first; `complete` when
    every part was consumed, and otherwise `node` has no edge for `parts[i]`.
   */
  method Descent<E(==), H>(t: Tree<E, H>, parts: seq<seq<E>>, accepts: H -> bool, n: nat, i0: int)
      returns (complete: bool, node: nat, i: int)
    requires WellFormed(t) && n < |t| && 0 <= i0 && i0 + Depth(t, n) == |parts|
    ensures node < |t| && -1 <= i && i + 1 + Depth(t, node) == |parts| && (complete <==> i == -1)
    ensures complete ==> Pending(t, parts, node, 0, accepts) == Pending(t, parts, n, i0, accepts)
    ensures complete ==> Work(t, parts, node, 0) <= Work(t, parts, n, i0)
    ensures !complete ==> After(t, parts, node, accepts) == Pending(t, parts, n, i0, accepts)
    ensures !complete ==> AfterVisits(t, parts, node) < Work(t, parts, n, i0)
  {
    node := n;
    i := i0 - 1;
    while i >= 0
      invariant node < |t| && -1 <= i && i + 1 + Depth(t, node) == |parts|
      invariant Pending(t, parts, node, i + 1, accepts) == Pending(t, parts, n, i0, accepts)
      invariant Work(t, parts, node, i + 1) <= Work(t, parts, n, i0)
    {
      var next := NextNode(t, node, parts[i]);
      Advance(t, parts, node, i + 1, accepts, next);
      if next.None? {
        return false, node, i;
      }
      node := next.value;
      i := i - 1;
    }
    return true, node, i;
  }

  /**
    One attempt of `dynamicHandler`: the descent of `Descent`, then, when every
    part was consumed, the handler of the node reached; `found` when it takes
    the request.
   */
  method Attempt<E(==), H>(t: Tree<E, H>, parts: seq<seq<E>>, accepts: H -> bool, n: nat, i0: int)
      returns (found: bool, node: nat, i: int)
    requires WellFormed(t) && n < |t| && 0 <= i0 && i0 + Depth(t, n) == |parts|
    ensures node < |t| && -1 <= i && i + 1 + Depth(t, node) == |parts|
    ensures found ==> OrElse(Search(t, parts, n, i0, accepts), After(t, parts, n, accepts)) == Some(node)
    ensures !found ==> After(t, parts, node, accepts) == OrElse(Search(t, parts, n, i0, accepts), After(t, parts, n, accepts))
    ensures !found ==> AfterVisits(t, parts, node) < Visits(t, parts, n, i0) + AfterVisits(t, parts, n)
  {
    var complete;
    complete, node, i := Descent(t, parts, accepts, n, i0);
    if !complete {
      return false, node, i;
    }
    Arrive(t, parts, node, accepts);
    found := t[node].exit.Some? && accepts(t[node].exit.value);
  }

  /**
    The inner loop of `generalizing` (lib/router.js:55-59): climbs out of
    parameter edges while the node is its parent's parameter child, and stops
    early at the root; the search still to do is unchanged.
   */
  method ClimbWilds<E(==), H>(t: Tree<E, H>, parts: seq<seq<E>>, accepts: H -> bool, n: nat, i0: int)
      returns (node: nat, i: int)
    requires WellFormed(t) && n < |t| && -1 <= i0 && i0 + 1 + Depth(t, n) == |parts| && t[n].parent.Some?
    ensures node <= n && -1 <= i && i + 1 + Depth(t, node) == |parts|
    ensures After(t, parts, node, accepts) == After(t, parts, n, accepts)
    ensures AfterVisits(t, parts, node) == AfterVisits(t, parts, n)
    ensures t[node].parent.Some? ==> t[t[node].parent.value].wild != Some(node)
  {
    node, i := n, i0;
    while t[t[node].parent.value].wild == Some(node)
      invariant node <= n && -1 <= i && i + 1 + Depth(t, node) == |parts| && t[node].parent.Some?
      invariant After(t, parts, node, accepts) == After(t, parts, n, accepts)
      invariant AfterVisits(t, parts, node) == AfterVisits(t, parts, n)
      decreases node
    {
      ClimbWild(t, parts, node, accepts);
      node := t[node].parent.value;
      i := i + 1;
      if t[node].parent.None? {
        return;
      }
    }
  }

  /**
    The `generalizing` loop of lib/router.js:54-66: climbs out of parameter
    edges, and out of literal edges until one has a sibling parameter edge;
    `None` when the root is reached.
   */
  method Backtrack<E(==), H>(t: Tree<E, H>, parts: seq<seq<E>>, accepts: H -> bool, n: nat, i0: int)
      returns (next: Option<nat>, i: int)
    requires WellFormed(t) && n < |t| && i0 + 1 + Depth(t, n) == |parts| && -1 <= i0
    ensures next.None? ==> After(t, parts, n, accepts) == None
    ensures next.Some? ==>
      && next.value < |t| && 0 <= i && i + Depth(t, next.value) == |parts|
      && OrElse(Search(t, parts, next.value, i, accepts), After(t, parts, next.value, accepts)) == After(t, parts, n, accepts)
      && Visits(t, parts, next.value, i) + AfterVisits(t, parts, next.value) <= AfterVisits(t, parts, n)
  {
    var node: nat := n;
    i := i0;
    while t[node].parent.Some?
      invariant node < |t| && -1 <= i && i + 1 + Depth(t, node) == |parts|
      invariant After(t, parts, node, accepts) == After(t, parts, n, accepts)
      invariant AfterVisits(t, parts, node) <= AfterVisits(t, parts, n)
      decreases node
    {
      node, i := ClimbWilds(t, parts, accepts, node, i);
      if t[node].parent.None? {
        return None, i;
      }
      if t[t[node].parent.value].wild.Some? {
        ClimbToWild(t, parts, node, t[node].parent.value, t[t[node].parent.value].wild.value, accepts);
      } else {
        ClimbPast(t, parts, node, accepts);
      }
      node := t[node].parent.value;
      i := i + 1;
      if t[node].wild.Some? {
        return t[node].wild, i;
      }
    }
    return None, i;
  }

  /**
    The request handler `makeHandler` builds, given the static key (`[]` for
    a falsy one): the exact-table handler is asked first and, when it
    declines, the trie is searched with the split key; the missing handler
    runs when the key is empty, the split fails or no handler takes it.
   */
  method Handle<E(==), H>(statics: map<seq<E>, H>, t: Tree<E, H>, key: seq<E>,
                          splitKey: seq<E> -> Option<seq<seq<E>>>, accepts: H -> bool) returns (o: Answer<H>)
    requires WellFormed(t)
    ensures key == [] ==> o == MissingRuns
    ensures key != [] && key in statics && accepts(statics[key]) ==> o == Taken(statics[key])
    ensures key != [] && !(key in statics && accepts(statics[key])) ==>
      o == if splitKey(key).None? then MissingRuns
           else match Search(t, splitKey(key).value, 0, |splitKey(key).value|, accepts)
                case None => MissingRuns
                case Some(m) => Taken(t[m].exit.value)
    ensures o.Taken? ==> accepts(o.handler)
  {
    if key == [] {
      return MissingRuns;
    }
    if key in statics && accepts(statics[key]) {
      return Taken(statics[key]);
    }
    var parts := splitKey(key);
    if parts.None? {
      return MissingRuns;
    }
    var found := DynamicHandler(t, parts.value, accepts);
    if found.None? {
      return MissingRuns;
    }
    return Taken(t[found.value].exit.value);
  }

  /** A node the search returns ends a route that matches the parts read from the end. */
  lemma {:induction false} SearchSound<E, H>(t: Tree<E, H>, parts: seq<seq<E>>, n: nat, k: nat, accepts: H -> bool)
    requires WellFormed(t) && n < |t| && k <= |parts| && Search(t, parts, n, k, accepts).Some?
    ensures exists r :: Walk(t, n, r) == Search(t, parts, n, k, accepts) && MatchesDown(r, parts, k)
    decreases k
  {
    var found := Search(t, parts, n, k, accepts);
    if k == 0 {
      assert Walk(t, n, []) == found && MatchesDown([], parts, 0);
    } else {
      var key := parts[k - 1];
      var c: nat;
      var p: Part<E>;
      if key in t[n].children && Search(t, parts, t[n].children[key], k - 1, accepts).Some? {
        c, p := t[n].children[key], Some(key);
      } else {
        c, p := t[n].wild.value, None;
      }
      assert Step(t, n, p) == Some(c) && Search(t, parts, c, k - 1, accepts) == found;
      SearchSound(t, parts, c, k - 1, accepts);
      var r :| Walk(t, c, r) == found && MatchesDown(r, parts, k - 1);
      WalkCons(t, n, c, p, r);
      MatchesDownCons(p, r, parts, k);
    }
  }

  /** A part that is a parameter or equals `parts[k - 1]`, followed by a route matching `parts[..k - 1]`, matches `parts[..k]`. */
  lemma MatchesDownCons<E>(p: Part<E>, r: seq<Part<E>>, parts: seq<seq<E>>, k: nat)
    requires 0 < k <= |parts| && MatchesDown(r, parts, k - 1)
    requires p.None? || p == Some(parts[k - 1])
    ensures MatchesDown([p] + r, parts, k)
  {
    forall j | 0 <= j < |[p] + r|
      ensures ([p] + r)[j].None? || ([p] + r)[j] == Some(parts[k - 1 - j])
    {
      if j == 0 {
        assert ([p] + r)[0] == p;
      } else {
        assert ([p] + r)[j] == r[j - 1];
      }
    }
  }

  /** Any matching route whose handler accepts makes the search succeed. */
  lemma {:induction false} SearchComplete<E, H>(t: Tree<E, H>, parts: seq<seq<E>>, n: nat, k: nat, accepts: H -> bool, r: seq<Part<E>>)
    requires WellFormed(t) && n < |t| && MatchesDown(r, parts, k)
    requires Walk(t, n, r).Some? && t[Walk(t, n, r).value].exit.Some? && accepts(t[Walk(t, n, r).value].exit.value)
    ensures Search(t, parts, n, k, accepts).Some?
    decreases k
  {
    if k > 0 {
      var c := Step(t, n, r[0]).value;
      assert r == [r[0]] + r[1..];
      WalkCons(t, n, c, r[0], r[1..]);
      assert MatchesDown(r[1..], parts, k - 1) by {
        forall j | 0 <= j < |r[1..]| ensures r[1..][j].None? || r[1..][j] == Some(parts[k - 2 - j]) {
          assert r[1..][j] == r[j + 1];
        }
      }
      SearchComplete(t, parts, c, k - 1, accepts, r[1..]);
    }
  }

  /**
    The missing handler runs exactly when no route matching the parts has a
    handler that takes the request.
   */
  lemma MissingIff<E, H>(t: Tree<E, H>, parts: seq<seq<E>>, accepts: H -> bool)
    requires WellFormed(t)
    ensures Search(t, parts, 0, |parts|, accepts).None? <==>
      forall r :: MatchesDown(r, parts, |parts|) && Walk(t, 0, r).Some? && t[Walk(t, 0, r).value].exit.Some?
        ==> !accepts(t[Walk(t, 0, r).value].exit.value)
  {
    if Search(t, parts, 0, |parts|, accepts).Some? {
      SearchSound(t, parts, 0, |parts|, accepts);
    }
    forall r | MatchesDown(r, parts, |parts|) && Walk(t, 0, r).Some? && t[Walk(t, 0, r).value].exit.Some?
      && accepts(t[Walk(t, 0, r).value].exit.value)
      ensures Search(t, parts, 0, |parts|, accepts).Some?
    {
      SearchComplete(t, parts, 0, |parts|, accepts, r);
    }
  }
}
