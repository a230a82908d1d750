/**
 The concrete rounds of tests/test_token_exchange.py, each derived from the
 closed-form reference.
 */
module TokenExchangeExamples {
  import opened Graphs
  import opened TokenExchange
  import opened TokenExchangeLaws

  /** The inflow from the three nodes 0, 1, 2. */
  lemma InflowOfThree(g: Graph, directed: bool, tok: map<Node, real>, n: Node)
    requires (directed ==> g.directed) && 0 in tok && 1 in tok && 2 in tok
    ensures Inflow(g, directed, tok, [0, 1, 2], n)
      == ShareTo(g, directed, tok, 0, n) + ShareTo(g, directed, tok, 1, n) + ShareTo(g, directed, tok, 2, n)
  {
    assert [0, 1, 2][1..] == [1, 2];
    assert [1, 2][1..] == [2];
    assert [2][1..] == [];
    assert Inflow(g, directed, tok, [2], n) == ShareTo(g, directed, tok, 2, n);
    assert Inflow(g, directed, tok, [1, 2], n) == ShareTo(g, directed, tok, 1, n) + Inflow(g, directed, tok, [2], n);
  }

  /** A lone node with a self-loop keeps its whole balance: its only outgoing
      slot is itself. */
  lemma LoneSelfLoopKeepsAll()
    ensures var r := TokenExchangeRound(Graph(true, [0], map[0 := 10.0], {(0, 0)}, map[]), false, true);
      r.Ok? && r.value.tokens[0] == 10.0
  {
    var g := Graph(true, [0], map[0 := 10.0], {(0, 0)}, map[]);
    assert HasTokens(g);
    assert Successors(g, 0) == [0];
    RoundMatchesReference(g, true);
  }

  /** A lone node without edges is skipped and keeps its whole balance. */
  lemma IsolatedNodeKeepsAll()
    ensures var r := TokenExchangeRound(Graph(true, [0], map[0 := 10.0], {}, map[]), false, true);
      r.Ok? && r.value.tokens[0] == 10.0
  {
    var g := Graph(true, [0], map[0 := 10.0], {}, map[]);
    assert HasTokens(g);
    assert Successors(g, 0) == [];
    RoundMatchesReference(g, true);
  }

  /** The graphs of the two even-split tests: node 0 with edges to 1 and 2,
      and a self-loop when `loop`; nodes 1 and 2 start empty. */
  predicate IsFan(g: Graph, loop: bool) {
    && g.directed && g.nodes == [0, 1, 2] && g.tokens.Keys == {0, 1, 2}
    && g.tokens[1] == 0.0 && g.tokens[2] == 0.0
    && g.edges == (if loop then {(0, 1), (0, 2), (0, 0)} else {(0, 1), (0, 2)})
    && g.weight == map[]
  }

  lemma FanOutgoing(g: Graph, loop: bool)
    requires IsFan(g, loop)
    ensures Outgoing(g, 0, true) == if loop then [0, 1, 2] else [1, 2]
    ensures NeighbourList(g, 0, true) != []
    ensures NeighbourList(g, 1, true) == [] && NeighbourList(g, 2, true) == []
  {
    assert [0, 1, 2][1..] == [1, 2] && [1, 2][1..] == [2] && [2][1..] == [];
    assert LinkedIn(g, 0, [2], true) == [2];
    assert LinkedIn(g, 0, [1, 2], true) == [1, 2];
    assert LinkedIn(g, 1, [2], true) == [] && LinkedIn(g, 1, [1, 2], true) == [];
    assert LinkedIn(g, 2, [2], true) == [] && LinkedIn(g, 2, [1, 2], true) == [];
    assert LinkedIn(g, 1, [0, 1, 2], true) == [] && LinkedIn(g, 2, [0, 1, 2], true) == [];
  }

  /** Only node 0 sends: each node ends with what it keeps plus its share
      from node 0. */
  lemma FanAt(g: Graph, loop: bool, n: Node)
    requires IsFan(g, loop) && 0 <= n < 3
    ensures Round(g, true).tokens[n] == Kept(g, true, g.tokens, n) + ShareTo(g, true, g.tokens, 0, n)
  {
    assert WellFormed(g);
    FanOutgoing(g, loop);
    RoundAt(g, true, n);
    InflowOfThree(g, true, g.tokens, n);
  }

  /** Node 0 splits its balance evenly over its outgoing slots, itself
      included when it has a self-loop; nodes 1 and 2 send nothing. */
  lemma FanSplitsEvenly(g: Graph, loop: bool)
    requires IsFan(g, loop)
    ensures var k := if loop then 3.0 else 2.0;
      && Round(g, true).tokens[0] == (if loop then g.tokens[0] / k else 0.0)
      && Round(g, true).tokens[1] == g.tokens[0] / k
      && Round(g, true).tokens[2] == g.tokens[0] / k
  {
    FanOutgoing(g, loop);
    FanAt(g, loop, 0);
    FanAt(g, loop, 1);
    FanAt(g, loop, 2);
  }

  /** A=10 with edges to B and C: A gives everything away, B and C get 5 each. */
  lemma EvenSplitTwoSuccessors()
    ensures var r := TokenExchangeRound(Graph(true, [0, 1, 2], map[0 := 10.0, 1 := 0.0, 2 := 0.0], {(0, 1), (0, 2)}, map[]), false, true);
      r.Ok? && r.value.tokens[0] == 0.0 && r.value.tokens[1] == 5.0 && r.value.tokens[2] == 5.0
  {
    var g := Graph(true, [0, 1, 2], map[0 := 10.0, 1 := 0.0, 2 := 0.0], {(0, 1), (0, 2)}, map[]);
    assert HasTokens(g);
    FanSplitsEvenly(g, false);
  }

  /** A=9 with edges to B, C and itself: 3 each, the self-loop counted once. */
  lemma EvenSplitWithSelfLoop()
    ensures var r := TokenExchangeRound(Graph(true, [0, 1, 2], map[0 := 9.0, 1 := 0.0, 2 := 0.0], {(0, 1), (0, 2), (0, 0)}, map[]), false, true);
      r.Ok? && r.value.tokens[0] == 3.0 && r.value.tokens[1] == 3.0 && r.value.tokens[2] == 3.0
  {
    var g := Graph(true, [0, 1, 2], map[0 := 9.0, 1 := 0.0, 2 := 0.0], {(0, 1), (0, 2), (0, 0)}, map[]);
    assert HasTokens(g);
    FanSplitsEvenly(g, true);
  }

  /** The directed triangle 0 -> 1 -> 2 -> 0 of the conservation test, with
      any balances (5, 10 and 15 in the test). */
  predicate IsTriangle(g: Graph) {
    && g.directed && g.nodes == [0, 1, 2] && g.tokens.Keys == {0, 1, 2}
    && g.edges == {(0, 1), (1, 2), (2, 0)} && g.weight == map[]
  }

  function Next(n: Node): Node {
    if n == 2 then 0 else n + 1
  }

  lemma TriangleLinks(g: Graph, n: Node)
    requires IsTriangle(g) && 0 <= n < 3
    ensures LinkedIn(g, n, [0, 1, 2], true) == [Next(n)]
  {
    assert [0, 1, 2][1..] == [1, 2] && [1, 2][1..] == [2] && [2][1..] == [];
    if n == 0 {
      assert LinkedIn(g, n, [2], true) == [];
      assert LinkedIn(g, n, [1, 2], true) == [1];
    } else if n == 1 {
      assert LinkedIn(g, n, [2], true) == [2];
      assert LinkedIn(g, n, [1, 2], true) == [2];
    } else {
      assert LinkedIn(g, n, [2], true) == [];
      assert LinkedIn(g, n, [1, 2], true) == [];
    }
  }

  lemma TriangleOutgoing(g: Graph, n: Node)
    requires IsTriangle(g) && 0 <= n < 3
    ensures NeighbourList(g, n, true) == [Next(n)]
    ensures Outgoing(g, n, true) == [Next(n)]
  {
    TriangleLinks(g, n);
    assert !HasSelfLoop(g, n);
  }

  /** Each node of the triangle passes its whole balance to its successor. */
  lemma TriangleShare(g: Graph, m: Node, n: Node)
    requires IsTriangle(g) && 0 <= m < 3
    ensures ShareTo(g, true, g.tokens, m, n) == if n == Next(m) then g.tokens[m] else 0.0
    ensures Kept(g, true, g.tokens, m) == 0.0
  {
    TriangleOutgoing(g, m);
  }

  lemma TriangleReceives(g: Graph, n: Node)
    requires IsTriangle(g) && 0 <= n < 3
    ensures Round(g, true).tokens[Next(n)] == g.tokens[n]
  {
    assert WellFormed(g);
    var k := Next(n);
    RoundAt(g, true, k);
    TriangleShare(g, k, k);
    InflowOfThree(g, true, g.tokens, k);
    TriangleShare(g, 0, k);
    TriangleShare(g, 1, k);
    TriangleShare(g, 2, k);
  }

  /** A round on the triangle rotates the balances one step, whatever they
      are; with 5, 10 and 15 the nodes end with 15, 5 and 10. */
  lemma TriangleRotates(g: Graph)
    requires IsTriangle(g)
    ensures Round(g, true).tokens[0] == g.tokens[2]
    ensures Round(g, true).tokens[1] == g.tokens[0]
    ensures Round(g, true).tokens[2] == g.tokens[1]
  {
    TriangleReceives(g, 0);
    TriangleReceives(g, 1);
    TriangleReceives(g, 2);
  }

  /** The conservation test: the triangle holding 5, 10 and 15 still holds 30
      tokens in all after a round. */
  lemma TriangleConserves()
    ensures var g := Graph(true, [0, 1, 2], map[0 := 5.0, 1 := 10.0, 2 := 15.0], {(0, 1), (1, 2), (2, 0)}, map[]);
      var r := TokenExchangeRound(g, false, true);
      r.Ok? && Total(r.value.tokens, [0, 1, 2]) == 30.0
  {
    var g := Graph(true, [0, 1, 2], map[0 := 5.0, 1 := 10.0, 2 := 15.0], {(0, 1), (1, 2), (2, 0)}, map[]);
    assert HasTokens(g);
    Conservation(g, true);
    assert [0, 1, 2][1..] == [1, 2] && [1, 2][1..] == [2] && [2][1..] == [];
    assert Total(g.tokens, [2]) == 15.0;
    assert Total(g.tokens, [1, 2]) == 25.0;
  }

  /** Node 0 holds 10 and sends to node 1, which has no balance: node 0 is
      zeroed, then the balance lookup for node 1 raises `KeyError`, and the
      10 tokens scheduled for node 1 are never delivered. */
  lemma KeyErrorLosesTokens()
    ensures var g := Graph(true, [0, 1], map[0 := 10.0], {(0, 1)}, map[]);
      TokenExchangeRound(g, false, true) == Err(Failure(MissingTokens(1), g.(tokens := map[0 := 0.0])))
  {
    var g := Graph(true, [0, 1], map[0 := 10.0], {(0, 1)}, map[]);
    assert [0, 1][1..] == [1] && [1][1..] == [] && [0, 1][..1] == [0] && [0][1..] == [];
    assert FirstMissing(g, g.nodes) == 1;
    assert FirstFailure(g, true, g.nodes) == Some(MissingTokens(1));
    assert LinkedIn(g, 0, [1], true) == [1];
    assert NeighbourList(g, 0, true) == [1];
    var s := Schedule(g, true, [0], g.tokens, []);
    assert s.0 == g.tokens[0 := 0.0];
    assert g.tokens[0 := 0.0] == map[0 := 0.0];
  }
}
