/**
 The graph preparation steps of graph_utils.py: random edge weights, random
 edge directions, random self-loops and uniform initial balances. Every draw
 from Python's `random` module is an explicit oracle argument, so each
 property below holds for every possible sequence of draws.
 */
module GraphUtils {
  import opened Graphs
  import opened TokenExchange
  import opened TokenExchangeLaws

  function Min(a: real, b: real): real {
    if a <= b then a else b
  }

  function Max(a: real, b: real): real {
    if a <= b then b else a
  }

  /** A draw of `random.random()`: a real in [0, 1). */
  predicate UnitDraw(x: real) {
    0.0 <= x < 1.0
  }

  // ---------------------------------------------------------------------
  // assign_random_weights
  // ---------------------------------------------------------------------

  /** Scaling by a factor in [0, 1] lands between 0 and the scaled value. */
  lemma ScaleWithin(a: real, x: real)
    requires 0.0 <= x <= 1.0
    ensures Min(0.0, a) <= a * x <= Max(0.0, a)
  {
    if 0.0 <= a {
      assert a - a * x == a * (1.0 - x);
    } else {
      assert a * x - a == (-a) * (1.0 - x);
      assert a * x == -((-a) * x);
    }
  }

  /** `random.uniform(lo, hi)` for the draw `x`: `lo + (hi - lo) * x`. */
  function Uniform(lo: real, hi: real, x: real): (r: real)
    ensures 0.0 <= x <= 1.0 ==> Min(lo, hi) <= r <= Max(lo, hi)
    ensures x == 0.0 ==> r == lo
    ensures x == 1.0 ==> r == hi
  {
    if 0.0 <= x <= 1.0 then ScaleWithin(hi - lo, x); lo + (hi - lo) * x
    else lo + (hi - lo) * x
  }

  /** `assign_random_weights(G, lo, hi)`, where `draw(e)` is the unit draw
      behind the weight of edge `e`. Every edge gets a weight between the two
      bounds (in whichever order they are given); nothing else changes. */
  function AssignRandomWeights(g: Graph, lo: real, hi: real, draw: Edge -> real): (r: Graph)
    ensures r.directed == g.directed && r.nodes == g.nodes && r.tokens == g.tokens && r.edges == g.edges
    ensures r.weight.Keys == g.weight.Keys + g.edges
    ensures forall e :: e in g.edges && 0.0 <= draw(e) <= 1.0 ==>
      Min(lo, hi) <= r.weight[e] <= Max(lo, hi)
    ensures forall e :: e in g.edges && 0.0 <= draw(e) <= 1.0 && lo <= hi ==>
      lo <= r.weight[e] <= hi
    ensures forall e :: e in g.weight && e !in g.edges ==> r.weight[e] == g.weight[e]
    ensures WellFormed(g) ==> WellFormed(r) && r.weight.Keys == g.edges
  {
    g.(weight := g.weight + map e | e in g.edges :: Uniform(lo, hi, draw(e)))
  }

  /** Whatever weights are drawn, a round on the weighted graph moves the
      same tokens as on the unweighted one. */
  lemma AssignedWeightsDoNotChangeRound(g: Graph, lo: real, hi: real, draw: Edge -> real, weighted: bool, directed: bool)
    ensures var h := AssignRandomWeights(g, lo, hi, draw);
      && TokenExchangeRound(h, weighted, directed).Ok? == TokenExchangeRound(g, weighted, directed).Ok?
      && (TokenExchangeRound(g, weighted, directed).Ok? ==>
            TokenExchangeRound(h, weighted, directed).value.tokens == TokenExchangeRound(g, weighted, directed).value.tokens)
  {
    var h := AssignRandomWeights(g, lo, hi, draw);
    assert h == g.(weight := h.weight);
    RoundIgnoresWeights(g, h.weight, weighted, weighted, directed);
  }

  // ---------------------------------------------------------------------
  // randomize_edge_directions
  // ---------------------------------------------------------------------

  /** The draws made for one input edge: `random.random()`, and the
      `random.choice([True, False])` consulted only when the first draw does
      not make the edge bidirectional. */
  datatype EdgeDraw = EdgeDraw(u: real, forward: bool)

  /** Both directions are added (graph_utils.py:17-20). */
  predicate Bidirectional(p: real, d: EdgeDraw) {
    d.u < p
  }

  /** The stored orientation (u, v) is added. */
  predicate KeepsOrientation(p: real, d: EdgeDraw) {
    Bidirectional(p, d) || d.forward
  }

  /** The reversed orientation (v, u) is added. */
  predicate AddsReverse(p: real, d: EdgeDraw) {
    Bidirectional(p, d) || !d.forward
  }

  /** The input edge whose draw produced the directed edge `d` of the result:
      `d` itself when it was kept, otherwise the reversed input edge. When
      both orientations are input edges and both produce `d`, this is the
      one with the same orientation. */
  function Origin(g: Graph, p: real, draw: Edge -> EdgeDraw, d: Edge): Edge {
    if d in g.edges && KeepsOrientation(p, draw(d)) then d else Flip(d)
  }

  /** Every edge of `s`, turned around. */
  function Flipped(s: set<Edge>): set<Edge> {
    set e | e in s :: Flip(e)
  }

  lemma FlippedMembers(s: set<Edge>)
    ensures forall d :: d in Flipped(s) <==> Flip(d) in s
  {
    forall d | Flip(d) in s
      ensures d in Flipped(s)
    {
      assert Flip(Flip(d)) == d;
    }
  }

  /** The directed edges made from the undirected edges of `g`. */
  function DirectedEdges(g: Graph, p: real, draw: Edge -> EdgeDraw): (r: set<Edge>)
    ensures forall d :: d in r <==>
      || (d in g.edges && KeepsOrientation(p, draw(d)))
      || (Flip(d) in g.edges && AddsReverse(p, draw(Flip(d))))
  {
    var kept := set e | e in g.edges && KeepsOrientation(p, draw(e));
    var toReverse := set e | e in g.edges && AddsReverse(p, draw(e));
    FlippedMembers(toReverse);
    kept + Flipped(toReverse)
  }

  /** `randomize_edge_directions(G, p)`: a new `DiGraph` with the nodes and
      node attributes of `g` (meant to be undirected), in which every edge of `g`
      becomes one or both of its directions and every directed edge carries
      the weight of the input edge whose draw produced it. */
  function RandomizeEdgeDirections(g: Graph, p: real, draw: Edge -> EdgeDraw): (r: Graph)
    ensures r.directed && r.nodes == g.nodes && r.tokens == g.tokens
    ensures forall e :: e in g.edges ==> e in r.edges || Flip(e) in r.edges
    ensures forall d :: d in r.edges ==> var e := Origin(g, p, draw, d);
      && e in g.edges
      && ((d == e && KeepsOrientation(p, draw(e))) || (d == Flip(e) && AddsReverse(p, draw(e))))
    ensures forall d :: d in r.weight <==> d in r.edges && Origin(g, p, draw, d) in g.weight
    ensures forall d :: d in r.weight ==> r.weight[d] == g.weight[Origin(g, p, draw, d)]
  {
    var edges := DirectedEdges(g, p, draw);
    Graph(true, g.nodes, g.tokens, edges,
      map d | d in edges && Origin(g, p, draw, d) in g.weight :: g.weight[Origin(g, p, draw, d)])
  }

  /** Every directed edge of the result stems from an input edge drawn the
      right way, and an input edge with both directions in the result drew
      `bidirectional` (or is a self-loop). */
  lemma DirectionsFollowDraws(g: Graph, p: real, draw: Edge -> EdgeDraw, e: Edge)
    requires WellFormed(g) && !g.directed && e in g.edges
    ensures e in RandomizeEdgeDirections(g, p, draw).edges <==> KeepsOrientation(p, draw(e)) || e.0 == e.1
    ensures Flip(e) in RandomizeEdgeDirections(g, p, draw).edges <==> AddsReverse(p, draw(e)) || e.0 == e.1
  {
    if e.0 == e.1 {
      assert Flip(e) == e;
    } else {
      assert Flip(e) !in g.edges;
      assert Flip(Flip(e)) == e;
    }
  }

  /** A self-loop stays a self-loop, whatever the draw and whether or not
      the input is directed. */
  lemma SelfLoopStays(g: Graph, p: real, draw: Edge -> EdgeDraw, n: Node)
    requires (n, n) in g.edges
    ensures (n, n) in RandomizeEdgeDirections(g, p, draw).edges
  {
    assert Flip((n, n)) == (n, n);
  }

  /** With `bidirectional_prob >= 1` every edge is added in both directions. */
  lemma CertainlyBidirectional(g: Graph, p: real, draw: Edge -> EdgeDraw)
    requires 1.0 <= p
    requires forall e :: e in g.edges ==> UnitDraw(draw(e).u)
    ensures forall e :: e in g.edges ==>
      e in RandomizeEdgeDirections(g, p, draw).edges && Flip(e) in RandomizeEdgeDirections(g, p, draw).edges
  {
    forall e | e in g.edges
      ensures e in RandomizeEdgeDirections(g, p, draw).edges && Flip(e) in RandomizeEdgeDirections(g, p, draw).edges
    {
      assert Flip(Flip(e)) == e;
    }
  }

  /** With `bidirectional_prob <= 0` every edge between two distinct nodes is
      added in exactly one direction, the one the coin picked. Stated for an
      undirected input, the documented use (graph_utils.py:10-13): a directed
      input holding both `(u, v)` and `(v, u)`, each drawn forward, yields
      both directions. */
  lemma NeverBidirectional(g: Graph, p: real, draw: Edge -> EdgeDraw)
    requires WellFormed(g) && !g.directed && p <= 0.0
    requires forall e :: e in g.edges ==> UnitDraw(draw(e).u)
    ensures forall e :: e in g.edges && e.0 != e.1 ==>
      && (e in RandomizeEdgeDirections(g, p, draw).edges <==> draw(e).forward)
      && (Flip(e) in RandomizeEdgeDirections(g, p, draw).edges <==> !draw(e).forward)
  {
    forall e | e in g.edges && e.0 != e.1
      ensures e in RandomizeEdgeDirections(g, p, draw).edges <==> draw(e).forward
      ensures Flip(e) in RandomizeEdgeDirections(g, p, draw).edges <==> !draw(e).forward
    {
      DirectionsFollowDraws(g, p, draw, e);
    }
  }

  /** The result is a well-formed `DiGraph` whose nodes keep their balances. */
  lemma RandomizedWellFormed(g: Graph, p: real, draw: Edge -> EdgeDraw)
    requires WellFormed(g)
    ensures WellFormed(RandomizeEdgeDirections(g, p, draw))
    ensures HasTokens(RandomizeEdgeDirections(g, p, draw)) == HasTokens(g)
  {
    var r := RandomizeEdgeDirections(g, p, draw);
    forall d | d in r.edges
      ensures d.0 in r.nodes && d.1 in r.nodes
    {
      var e := Origin(g, p, draw, d);
      assert e.0 in g.nodes && e.1 in g.nodes;
    }
  }

  /** A `DiGraph` holding both `(0, 1)` with weight 1 and `(1, 0)` with
      weight 2, where neither draw is bidirectional and both coins reverse:
      each output edge is produced by the other orientation alone and
      carries its weight, so the two weights trade places. */
  lemma ReversedPairSwapsWeights()
    ensures var g := Graph(true, [0, 1], map[], {(0, 1), (1, 0)}, map[(0, 1) := 1.0, (1, 0) := 2.0]);
      var r := RandomizeEdgeDirections(g, 0.0, e => EdgeDraw(0.5, false));
      && r.edges == {(0, 1), (1, 0)}
      && r.weight == map[(0, 1) := 2.0, (1, 0) := 1.0]
  {
    var g := Graph(true, [0, 1], map[], {(0, 1), (1, 0)}, map[(0, 1) := 1.0, (1, 0) := 2.0]);
    var draw := e => EdgeDraw(0.5, false);
    var r := RandomizeEdgeDirections(g, 0.0, draw);
    assert Origin(g, 0.0, draw, (0, 1)) == (1, 0);
    assert Origin(g, 0.0, draw, (1, 0)) == (0, 1);
    assert (0, 1) in r.edges && (1, 0) in r.edges;
  }

  // ---------------------------------------------------------------------
  // add_random_self_loops
  // ---------------------------------------------------------------------

  /** `add_random_self_loops(G, p)`: node `n` gets a self-loop when its draw
      `draw(n)` is below `p`. Existing edges and their weights stay. */
  function AddRandomSelfLoops(g: Graph, p: real, draw: Node -> real): (r: Graph)
    ensures r.directed == g.directed && r.nodes == g.nodes && r.tokens == g.tokens && r.weight == g.weight
    ensures g.edges <= r.edges
    ensures forall e :: e in r.edges && e !in g.edges ==> e.0 == e.1 && e.0 in g.nodes && draw(e.0) < p
    ensures forall n :: n in g.nodes && draw(n) < p ==> HasSelfLoop(r, n)
    ensures WellFormed(g) ==> WellFormed(r)
  {
    g.(edges := g.edges + set n | n in g.nodes && draw(n) < p :: (n, n))
  }

  /** With `self_loop_prob <= 0` nothing is added; with `self_loop_prob >= 1`
      every node ends with a self-loop. */
  lemma SelfLoopExtremes(g: Graph, p: real, draw: Node -> real)
    requires forall n :: n in g.nodes ==> UnitDraw(draw(n))
    ensures p <= 0.0 ==> AddRandomSelfLoops(g, p, draw) == g
    ensures 1.0 <= p ==> forall n :: n in g.nodes ==> HasSelfLoop(AddRandomSelfLoops(g, p, draw), n)
  {
    if p <= 0.0 {
      assert AddRandomSelfLoops(g, p, draw).edges == g.edges;
    }
  }

  /** Adding a self-loop where there already is one changes nothing, so the
      step is idempotent for a fixed set of draws. */
  lemma SelfLoopsIdempotent(g: Graph, p: real, draw: Node -> real)
    ensures (forall n :: n in g.nodes && draw(n) < p ==> HasSelfLoop(g, n)) ==> AddRandomSelfLoops(g, p, draw) == g
    ensures AddRandomSelfLoops(AddRandomSelfLoops(g, p, draw), p, draw) == AddRandomSelfLoops(g, p, draw)
  {
    if forall n :: n in g.nodes && draw(n) < p ==> HasSelfLoop(g, n) {
      assert AddRandomSelfLoops(g, p, draw).edges == g.edges;
    }
    var r := AddRandomSelfLoops(g, p, draw);
    assert AddRandomSelfLoops(r, p, draw).edges == r.edges;
  }

  /** A node that gains a self-loop keeps a share of its own balance in the
      next round: it appears once among the nodes it sends to. */
  lemma SelfLoopJoinsOutgoing(g: Graph, p: real, draw: Node -> real, n: Node, directed: bool)
    requires WellFormed(g) && (directed ==> g.directed) && n in g.nodes && draw(n) < p
    ensures n in Outgoing(AddRandomSelfLoops(g, p, draw), n, directed)
    ensures Distinct(Outgoing(AddRandomSelfLoops(g, p, draw), n, directed))
  {
    var r := AddRandomSelfLoops(g, p, draw);
    SelfLoopCountedOnce(r, n, directed);
  }

  // ---------------------------------------------------------------------
  // initialize_tokens
  // ---------------------------------------------------------------------

  /** `initialize_tokens(G, t)`: every node's balance becomes `t`. */
  function InitializeTokens(g: Graph, t: real): (r: Graph)
    ensures r.directed == g.directed && r.nodes == g.nodes && r.edges == g.edges && r.weight == g.weight
    ensures HasTokens(r)
    ensures forall n :: n in g.nodes ==> r.tokens[n] == t
    ensures r.tokens.Keys == g.tokens.Keys + Elements(g.nodes)
    ensures forall n :: n in g.tokens && n !in g.nodes ==> r.tokens[n] == g.tokens[n]
  {
    g.(tokens := g.tokens + map n | n in g.nodes :: t)
  }

  lemma {:induction false} TotalOfConstant(tok: map<Node, real>, ns: seq<Node>, t: real)
    requires forall n :: n in ns ==> n in tok && tok[n] == t
    ensures Total(tok, ns) == (|ns| as real) * t
  {
    if ns != [] {
      TotalOfConstant(tok, ns[1..], t);
    }
  }

  /** After `initialize_tokens` the graph holds `|nodes| * t` tokens, a round
      on it cannot fail for want of a balance, and every round keeps that
      total. */
  lemma InitializedRound(g: Graph, t: real, weighted: bool, directed: bool)
    requires WellFormed(g)
    ensures Total(InitializeTokens(g, t).tokens, g.nodes) == (|g.nodes| as real) * t
    ensures TokenExchangeRound(InitializeTokens(g, t), weighted, directed).Ok? <==>
      (directed && !g.directed ==> g.nodes == [])
    ensures TokenExchangeRound(InitializeTokens(g, t), weighted, directed).Ok? ==>
      Total(TokenExchangeRound(InitializeTokens(g, t), weighted, directed).value.tokens, g.nodes) == (|g.nodes| as real) * t
  {
    var h := InitializeTokens(g, t);
    TotalOfConstant(h.tokens, g.nodes, t);
    if TokenExchangeRound(h, weighted, directed).Ok? && g.nodes != [] {
      Conservation(h, directed);
    }
  }
}
