/**
 Registering the nodes connected below a freshly created node.  The pin graph may share
 nodes and may be cyclic; only a bound on the depth stops the walk.
 */
module PinTree {
  import opened Basics
  import opened HandleRegistry

  const MAX_PIN_TREE_DEPTH: nat := 22

  /** How many connections below its starting node the walk follows. */
  const REACH: nat := MAX_PIN_TREE_DEPTH + 1

  /** The node connected to each pin of each node; `NULL` where a pin is empty. */
  type PinGraph = map<Pointer, seq<Pointer>>

  function Pins(g: PinGraph, node: Pointer): seq<Pointer> {
    if node in g then g[node] else []
  }

  /** The registrations the walk makes below `node`, in order, following at most `budget` connections. */
  function Walk(g: PinGraph, node: Pointer, budget: nat): seq<Pointer>
    decreases budget, |Pins(g, node)| + 1
  {
    if budget == 0 || node == NULL then [] else WalkPins(g, node, |Pins(g, node)|, budget)
  }

  /** The same for the first `n` pins of `node`. */
  function WalkPins(g: PinGraph, node: Pointer, n: nat, budget: nat): seq<Pointer>
    requires budget > 0 && n <= |Pins(g, node)|
    decreases budget, n
  {
    if n == 0 then []
    else
      var child := Pins(g, node)[n - 1];
      WalkPins(g, node, n - 1, budget) + if child == NULL then [] else [child] + Walk(g, child, budget - 1)
  }

  /** `items` registered one after the other. */
  function RegisterAll(t: Table, ids: Identities, items: seq<Pointer>): Table {
    if items == [] then t
    else Registered(RegisterAll(t, ids, items[..|items| - 1]), ids, items[|items| - 1])
  }

  /** The walk through some pins is the start of the walk through more. */
  lemma {:induction false} WalkPinsIsPrefix(g: PinGraph, node: Pointer, i: nat, n: nat, budget: nat)
    requires budget > 0 && i <= n <= |Pins(g, node)|
    ensures WalkPins(g, node, i, budget) <= WalkPins(g, node, n, budget)
    decreases n
  {
    if i < n {
      WalkPinsIsPrefix(g, node, i, n - 1, budget);
    }
  }

  /** As many of the registrations as are made before number `stop` throws. */
  function Interrupted(items: seq<Pointer>, stop: Option<nat>): seq<Pointer> {
    if Cuts(items, stop) then items[..stop.value] else items
  }

  /** The registration that throws is one of these. */
  predicate Cuts(items: seq<Pointer>, stop: Option<nat>) {
    stop.Some? && stop.value < |items|
  }

  /** The table is what the registrations `items` made of `start`, up to number `stop`, which threw if there is one. */
  ghost predicate Reached(t: Table, start: Table, ids: Identities, items: seq<Pointer>, stop: Option<nat>,
                          made: nat, threw: bool) {
    && t == RegisterAll(start, ids, Interrupted(items, stop))
    && made == |Interrupted(items, stop)| && threw == Cuts(items, stop)
  }

  /** What one more pin adds to the registrations, all of which belong to the walk. */
  lemma OneMorePin(g: PinGraph, node: Pointer, i: nat, budget: nat, done: seq<Pointer>)
    requires budget > 0 && node != NULL && i < |Pins(g, node)|
    ensures var child, all := Pins(g, node)[i], done + Walk(g, node, budget);
      var items, items' := done + WalkPins(g, node, i, budget), done + WalkPins(g, node, i + 1, budget);
      && items' == (if child == NULL then items else items + [child] + Walk(g, child, budget - 1))
      && items' <= all
  {
    WalkPinsIsPrefix(g, node, i + 1, |Pins(g, node)|, budget);
    assert done + WalkPins(g, node, i, budget) + [] == done + WalkPins(g, node, i, budget);
  }

  lemma OneMoreItem(t: Table, start: Table, ids: Identities, items: seq<Pointer>, stop: Option<nat>, made: nat,
                    item: Pointer)
    requires Reached(t, start, ids, items, stop, made, false) && stop != Some(made)
    ensures Reached(Registered(t, ids, item), start, ids, items + [item], stop, made + 1, false)
  {
    assert (items + [item])[..|items|] == items;
  }

  /** A walk that throws at some registration has made those before it and no others. */
  lemma NoMoreItems(t: Table, start: Table, ids: Identities, items: seq<Pointer>, all: seq<Pointer>,
                    stop: Option<nat>, made: nat)
    requires items <= all
    requires || Reached(t, start, ids, items, stop, made, true)
             || (Reached(t, start, ids, items, stop, made, false) && stop == Some(made) && |items| < |all|)
    ensures Reached(t, start, ids, all, stop, made, true)
  {
    assert Interrupted(all, stop) == Interrupted(items, stop);
  }

  /**
   The recursive walk.  The registrations `done`, `made` of them, have turned the table `start`
   into what it is; the SDK throws instead of number `stop`.
   */
  method RegisterPinChildren(registry: HandleRegistry, ids: Identities, g: PinGraph, node: Pointer, depth: nat,
                             stop: Option<nat>, made: nat, ghost start: Table, ghost done: seq<Pointer>)
    returns (made': nat, threw: bool)
    requires depth <= REACH
    requires Reached(registry.View(), start, ids, done, stop, made, false)
    modifies registry
    ensures Reached(registry.View(), start, ids, done + Walk(g, node, REACH - depth), stop, made', threw)
    decreases REACH - depth, 1
  {
    made', threw := made, false;
    assert done + [] == done;
    if node == NULL {
      return;
    }
    if depth > MAX_PIN_TREE_DEPTH {
      return;
    }
    ghost var budget, all := REACH - depth, done + Walk(g, node, REACH - depth);
    for i := 0 to |Pins(g, node)|
      invariant Reached(registry.View(), start, ids, done + WalkPins(g, node, i, budget), stop, made', false)
      invariant !threw
    {
      var child := Pins(g, node)[i];
      ghost var items := done + WalkPins(g, node, i, budget);
      OneMorePin(g, node, i, budget, done);
      if child != NULL {
        made', threw := RegisterChild(registry, ids, g, child, depth, stop, made', start, items);
        if threw {
          NoMoreItems(registry.View(), start, ids, done + WalkPins(g, node, i + 1, budget), all, stop, made');
          return;
        }
      }
    }
  }

  /** What the walk does with one child: register it, then go on below it. */
  method RegisterChild(registry: HandleRegistry, ids: Identities, g: PinGraph, child: Pointer, depth: nat,
                       stop: Option<nat>, made: nat, ghost start: Table, ghost done: seq<Pointer>)
    returns (made': nat, threw: bool)
    requires depth < REACH && child != NULL
    requires Reached(registry.View(), start, ids, done, stop, made, false)
    modifies registry
    ensures Reached(registry.View(), start, ids, done + [child] + Walk(g, child, REACH - depth - 1), stop, made', threw)
    decreases REACH - depth, 0
  {
    if stop == Some(made) {
      NoMoreItems(registry.View(), start, ids, done, done + [child] + Walk(g, child, REACH - depth - 1), stop, made);
      return made, true;
    }
    OneMoreItem(registry.View(), start, ids, done, stop, made, child);
    var _ := registry.Register(child, ids);
    made', threw := RegisterPinChildren(registry, ids, g, child, depth + 1, stop, made + 1, start, done + [child]);
  }

  // ---------------------------------------------------------------- reachability

  /** There is a path of exactly `k` connections from `node` to `target`. */
  ghost predicate Reaches(g: PinGraph, node: Pointer, target: Pointer, k: nat)
    decreases k
  {
    && node != NULL
    && if k == 0 then node == target
       else exists child :: child in Pins(g, node) && Reaches(g, child, target, k - 1)
  }

  /** `target` is below `node`, however deep. */
  ghost predicate Descends(g: PinGraph, node: Pointer, target: Pointer) {
    exists k: nat :: k >= 1 && Reaches(g, node, target, k)
  }

  /** `target` is below `node`, at most `bound` connections down. */
  ghost predicate DescendsWithin(g: PinGraph, node: Pointer, target: Pointer, bound: nat) {
    exists k: nat :: 1 <= k <= bound && Reaches(g, node, target, k)
  }

  /** The walk meets `target` at `child` or below it. */
  ghost predicate Meets(g: PinGraph, child: Pointer, target: Pointer, budget: nat) {
    child != NULL && (child == target || target in Walk(g, child, budget))
  }

  ghost predicate MeetsAny(g: PinGraph, children: seq<Pointer>, target: Pointer, budget: nat) {
    exists child :: child in children && Meets(g, child, target, budget)
  }

  lemma MeetsAnyAppend(g: PinGraph, children: seq<Pointer>, last: Pointer, target: Pointer, budget: nat)
    ensures MeetsAny(g, children + [last], target, budget)
       <==> MeetsAny(g, children, target, budget) || Meets(g, last, target, budget)
  {
    assert forall child :: child in children + [last] <==> child in children || child == last;
  }

  lemma {:induction false} WalkPinsStep(g: PinGraph, node: Pointer, n: nat, budget: nat, target: Pointer)
    requires budget > 0 && 0 < n <= |Pins(g, node)|
    ensures target in WalkPins(g, node, n, budget)
       <==> target in WalkPins(g, node, n - 1, budget) || Meets(g, Pins(g, node)[n - 1], target, budget - 1)
  {
    var before, last := WalkPins(g, node, n - 1, budget), Pins(g, node)[n - 1];
    var rest := if last == NULL then [] else [last] + Walk(g, last, budget - 1);
    assert WalkPins(g, node, n, budget) == before + rest;
    assert target in before + rest <==> target in before || target in rest;
  }

  lemma {:induction false} WalkPinsMeets(g: PinGraph, node: Pointer, n: nat, budget: nat, target: Pointer)
    requires budget > 0 && n <= |Pins(g, node)|
    ensures target in WalkPins(g, node, n, budget) <==> MeetsAny(g, Pins(g, node)[..n], target, budget - 1)
  {
    if n > 0 {
      var last := Pins(g, node)[n - 1];
      WalkPinsStep(g, node, n, budget, target);
      WalkPinsMeets(g, node, n - 1, budget, target);
      MeetsAnyAppend(g, Pins(g, node)[..n - 1], last, target, budget - 1);
      assert Pins(g, node)[..n] == Pins(g, node)[..n - 1] + [last];
    }
  }

  lemma WalkMeets(g: PinGraph, node: Pointer, budget: nat, target: Pointer)
    requires budget > 0 && node != NULL
    ensures target in Walk(g, node, budget) <==> MeetsAny(g, Pins(g, node), target, budget - 1)
  {
    WalkPinsMeets(g, node, |Pins(g, node)|, budget, target);
    assert Pins(g, node)[..|Pins(g, node)|] == Pins(g, node);
  }

  lemma {:induction false} WalkedIsReached(g: PinGraph, node: Pointer, budget: nat, target: Pointer) returns (k: nat)
    requires target in Walk(g, node, budget)
    ensures 1 <= k <= budget && Reaches(g, node, target, k)
    decreases budget
  {
    WalkMeets(g, node, budget, target);
    var child :| child in Pins(g, node) && Meets(g, child, target, budget - 1);
    if child == target {
      assert Reaches(g, child, target, 0);
      k := 1;
    } else {
      k := WalkedIsReached(g, child, budget - 1, target);
      k := k + 1;
      assert Reaches(g, child, target, k - 1);
    }
  }

  lemma {:induction false} ReachedIsWalked(g: PinGraph, node: Pointer, budget: nat, target: Pointer, k: nat)
    requires 1 <= k <= budget && Reaches(g, node, target, k)
    ensures target in Walk(g, node, budget)
    decreases budget
  {
    var child :| child in Pins(g, node) && Reaches(g, child, target, k - 1);
    assert Meets(g, child, target, budget - 1) by {
      if k > 1 {
        ReachedIsWalked(g, child, budget - 1, target, k - 1);
      }
    }
    assert MeetsAny(g, Pins(g, node), target, budget - 1);
    WalkMeets(g, node, budget, target);
  }

  /** The walk makes exactly the registrations of bounded reachability, on any graph. */
  lemma WalkIsBoundedReach(g: PinGraph, node: Pointer, budget: nat, target: Pointer)
    ensures target in Walk(g, node, budget) <==> DescendsWithin(g, node, target, budget)
  {
    if target in Walk(g, node, budget) {
      var k := WalkedIsReached(g, node, budget, target);
    }
    if k: nat :| 1 <= k <= budget && Reaches(g, node, target, k) {
      ReachedIsWalked(g, node, budget, target, k);
    }
  }

  /** Every node below `node` is within the reach of the walk. */
  ghost predicate Shallow(g: PinGraph, node: Pointer) {
    forall target :: Descends(g, node, target) ==> DescendsWithin(g, node, target, REACH)
  }

  /** The walk visits nothing but what is below the node; and all of that, if and only if the graph is shallow. */
  lemma WalkIsClosureIffShallow(g: PinGraph, node: Pointer)
    ensures forall target :: target in Walk(g, node, REACH) ==> Descends(g, node, target)
    ensures (forall target :: Descends(g, node, target) ==> target in Walk(g, node, REACH)) <==> Shallow(g, node)
  {
    forall target
      ensures target in Walk(g, node, REACH) <==> DescendsWithin(g, node, target, REACH)
    {
      WalkIsBoundedReach(g, node, REACH, target);
    }
  }

  // ---------------------------------------------------------------- when the walk reaches everything

  /** `below` has every node connected below `node`. */
  ghost predicate Encloses(g: PinGraph, node: Pointer, below: set<Pointer>) {
    && (forall child :: child in Pins(g, node) && child != NULL ==> child in below)
    && (forall x, child :: x in below && child in Pins(g, x) && child != NULL ==> child in below)
  }

  /** A path ends with a connection from its last node but one. */
  lemma {:induction false} LastConnection(g: PinGraph, node: Pointer, target: Pointer, k: nat) returns (y: Pointer)
    requires Reaches(g, node, target, k + 1)
    ensures Reaches(g, node, y, k) && target in Pins(g, y) && target != NULL
    decreases k
  {
    var child :| child in Pins(g, node) && Reaches(g, child, target, k);
    if k == 0 {
      y := node;
    } else {
      y := LastConnection(g, child, target, k - 1);
    }
  }

  lemma {:induction false} OneMoreConnection(g: PinGraph, node: Pointer, y: Pointer, target: Pointer, k: nat)
    requires Reaches(g, node, y, k) && target in Pins(g, y) && target != NULL
    ensures Reaches(g, node, target, k + 1)
    decreases k
  {
    if k == 0 {
      assert Reaches(g, target, target, 0);
    } else {
      var child :| child in Pins(g, node) && Reaches(g, child, y, k - 1);
      OneMoreConnection(g, child, y, target, k - 1);
    }
  }

  lemma {:induction false} EnclosedAreReached(g: PinGraph, node: Pointer, below: set<Pointer>, target: Pointer, k: nat)
    requires Encloses(g, node, below) && k >= 1 && Reaches(g, node, target, k)
    ensures target in below
    decreases k
  {
    var y := LastConnection(g, node, target, k - 1);
    if k > 1 {
      EnclosedAreReached(g, node, below, y, k - 1);
    }
  }

  /** The nodes below `node`, at most `k` connections down. */
  ghost function Layer(g: PinGraph, node: Pointer, below: set<Pointer>, k: nat): set<Pointer> {
    set x | x in below && DescendsWithin(g, node, x, k)
  }

  /** If one more connection leads to nothing new, no number of connections does. */
  lemma {:induction false} NothingNewEver(g: PinGraph, node: Pointer, below: set<Pointer>, j: nat,
                                          target: Pointer, k: nat)
    requires Encloses(g, node, below) && Layer(g, node, below, j) == Layer(g, node, below, j + 1)
    requires k >= 1 && Reaches(g, node, target, k)
    ensures target in Layer(g, node, below, j)
    decreases k
  {
    EnclosedAreReached(g, node, below, target, k);
    if k > j + 1 {
      var y := LastConnection(g, node, target, k - 1);
      NothingNewEver(g, node, below, j, y, k - 1);
      var i: nat :| 1 <= i <= j && Reaches(g, node, y, i);
      OneMoreConnection(g, node, y, target, i);
    }
    assert target in Layer(g, node, below, j + 1);
  }

  lemma MoreElements(before: set<Pointer>, after: set<Pointer>)
    requires before <= after && before != after
    ensures |before| < |after|
  {
    assert after == before + (after - before);
    assert after - before != {};
  }

  /** Each connection leads to something new, until some `j` after which none does. */
  lemma {:induction false} LayersGrow(g: PinGraph, node: Pointer, below: set<Pointer>, k: nat) returns (j: nat)
    ensures (j < k && Layer(g, node, below, j) == Layer(g, node, below, j + 1)) || |Layer(g, node, below, k)| >= k
  {
    j := 0;
    if k > 0 {
      j := LayersGrow(g, node, below, k - 1);
      var before, after := Layer(g, node, below, k - 1), Layer(g, node, below, k);
      if |before| >= k - 1 {
        if before == after {
          j := k - 1;
        } else {
          MoreElements(before, after);
        }
      }
    }
  }

  /**
   With at most 23 nodes below it, shared and connected in circles as they may be, a node is
   shallow: a longer path has a shorter one with the same end.
   */
  lemma FewNodesAreShallow(g: PinGraph, node: Pointer, below: set<Pointer>)
    requires Encloses(g, node, below) && |below| <= 23
    ensures Shallow(g, node)
  {
    var j := LayersGrow(g, node, below, REACH + 1);
    LayerIsSmall(g, node, below, REACH + 1);
    forall target | Descends(g, node, target)
      ensures DescendsWithin(g, node, target, REACH)
    {
      var k: nat :| k >= 1 && Reaches(g, node, target, k);
      NothingNewEver(g, node, below, j, target, k);
    }
  }

  lemma LayerIsSmall(g: PinGraph, node: Pointer, below: set<Pointer>, k: nat)
    ensures |Layer(g, node, below, k)| <= |below|
  {
    var layer := Layer(g, node, below, k);
    assert below == layer + (below - layer);
  }

  /** The nodes 1 to `n + 1` in a row, each connected to the next. */
  function Chain(n: nat): (g: PinGraph)
    ensures forall i: Pointer :: i in g <==> 1 <= i <= n
    ensures forall i: Pointer :: i in g ==> g[i] == [i + 1]
  {
    if n == 0 then map[] else Chain(n - 1)[n := [n + 1]]
  }

  lemma {:induction false} ChainReaches(n: nat, node: Pointer, target: Pointer, k: nat)
    requires 1 <= node <= n + 1
    ensures Reaches(Chain(n), node, target, k) <==> target == node + k <= n + 1
    decreases k
  {
    if k > 0 && node <= n {
      ChainReaches(n, node + 1, target, k - 1);
      assert node + 1 in Pins(Chain(n), node);
    }
  }

  /** No bound on the number of nodes could be wider: `n` of them in a row are too deep when there are more than 23. */
  lemma ChainIsShallowIff(n: nat)
    ensures Shallow(Chain(n), 1) <==> n <= 23
  {
    forall target: Pointer, k: nat
      ensures Reaches(Chain(n), 1, target, k) <==> target == 1 + k <= n + 1
    {
      ChainReaches(n, 1, target, k);
    }
    if n > REACH {
      assert Reaches(Chain(n), 1, REACH + 2, REACH + 1);
      assert Descends(Chain(n), 1, REACH + 2);
    }
  }

  // ---------------------------------------------------------------- what the registry ends up with

  /** Registering a list adds exactly its living items: every other handle keeps its entry. */
  lemma {:induction false} RegisterAllAdds(t: Table, ids: Identities, items: seq<Pointer>, h: nat)
    ensures var t' := RegisterAll(t, ids, items);
      && t' == t.(handles := t'.handles)
      && (if exists item :: item in items && item != NULL && UniqueId(ids, item) == h && h != 0
          then h in t'.handles && t'.handles[h] in items && t'.handles[h] != NULL && UniqueId(ids, t'.handles[h]) == h
          else (h in t'.handles <==> h in t.handles) && (h in t.handles ==> t'.handles[h] == t.handles[h]))
  {
    if items != [] {
      var init, last := items[..|items| - 1], items[|items| - 1];
      RegisterAllAdds(t, ids, init, h);
      assert items == init + [last];
      assert forall item :: item in items <==> item in init || item == last;
    }
  }

  /** No two living items have the same identity. */
  ghost predicate DistinctIds(ids: Identities) {
    forall a, b :: a in ids && b in ids && ids[a] == ids[b] != 0 ==> a == b
  }

  /**
   After the walk, every living node within 23 connections resolves under its identity, and
   a handle that is not the identity of such a node is as it was.
   */
  lemma WalkMakesResolvable(t: Table, ids: Identities, g: PinGraph, node: Pointer, h: nat)
    requires DistinctIds(ids)
    ensures var t' := RegisterAll(t, ids, Walk(g, node, REACH));
      && (forall target :: DescendsWithin(g, node, target, REACH) && h != 0 && UniqueId(ids, target) == h
            ==> Found(t', ids, h) == target)
      && ((forall target :: DescendsWithin(g, node, target, REACH) ==> UniqueId(ids, target) != h)
            ==> Found(t', ids, h) == Found(t, ids, h))
  {
    var items := Walk(g, node, REACH);
    RegisterAllAdds(t, ids, items, h);
    forall target
      ensures target in items <==> DescendsWithin(g, node, target, REACH)
      ensures DescendsWithin(g, node, target, REACH) ==> target != NULL
    {
      WalkIsBoundedReach(g, node, REACH, target);
      if k: nat :| 1 <= k <= REACH && Reaches(g, node, target, k) {
        ReachedIsNode(g, node, target, k);
      }
    }
  }

  lemma {:induction false} ReachedIsNode(g: PinGraph, node: Pointer, target: Pointer, k: nat)
    requires Reaches(g, node, target, k)
    ensures target != NULL
    decreases k
  {
    if k > 0 {
      var child :| child in Pins(g, node) && Reaches(g, child, target, k - 1);
      ReachedIsNode(g, child, target, k - 1);
    }
  }
}
