# Token diffusion on a graph

A Dafny model of the core of a small token-diffusion simulator. There are two parts.

The first part is one **round of token exchange** (`token_exchange_round`). Each node reads its balance and works out where to send it:

- In directed mode it sends to its successors. Otherwise it sends to its neighbours.
- It also sends to itself, once, if it has a self-loop.
- It is skipped if it has no neighbours or a balance of exactly zero.

Otherwise it schedules a share of `balance / |outgoing|` to each outgoing node and its balance drops to zero. The scheduled transfers are applied only after every node has been visited.

The second part is the **graph preparation steps** of `graph_utils.py`:

- random edge weights;
- random edge directions;
- random self-loops;
- uniform initial balances.

A graph (`Graphs.Graph`) holds:

- whether it is a `DiGraph`;
- its nodes in insertion order;
- a `tokens` balance per node;
- its edge set, in which an undirected edge is stored in one orientation;
- an edge-weight map.

Balances and weights are `real`, so conservation holds exactly rather than within a float tolerance. Every draw from Python's `random` module is an explicit oracle argument, so each property holds for every sequence of draws. A round is a pure function (`TokenExchange.Round`) that mirrors the source's two loops:

- `Schedule` reads each node's current balance, zeroes senders and collects `Transfer`s.
- `Apply` adds the transfers to the recipients.

`TokenExchangeRound` wraps `Round` with the exceptions the source can raise:

- `directed=True` on an undirected graph, which has no `successors` (`AttributeError`, token_exchange.py:13). It is raised at the first node, before anything changes.
- a node without a balance (`KeyError`, token_exchange.py:12). It is raised when the loop reaches that node. The nodes before it have already been scheduled, so the senders among them are left zeroed and their transfers are never applied: the caller's graph loses those tokens. The model returns this partially zeroed graph with the error (`TokenExchange.Failure`).

Points where the code behaves in a way worth stating:

- **No validation.** graph_utils.py:4-35 check no argument: neither the probabilities nor `min_weight <= max_weight`. The model has no rejection path, and its properties are stated for the ranges where they hold.
- **`randomize_edge_directions` converts a directed input too** (graph_utils.py:14-25), and the model accepts one.
- **A round can raise** `KeyError` or `AttributeError` (token_exchange.py:12-13), as above.
- **The self-loop append is dead code.** In networkx a node with a self-loop is already among its own neighbours or successors. So the self-loop append at token_exchange.py:20-22 never fires (`TokenExchangeLaws.SelfLoopCountedOnce`).
- **`directed=False` on a `DiGraph`.** `neighbors` is the successor list, so the round still follows edge directions.

Files:

- `graph.dfy`: the graph value, neighbour lists.
- `token_exchange.dfy`: the round as the source computes it.
- `token_exchange_laws.dfy`: a closed-form reference round and the laws proved against it.
- `token_exchange_examples.dfy`: the repository's test scenarios.
- `graph_utils.dfy`: the preparation steps.

## Model

| member | source | states |
|---|---|---|
| Graphs.Successors | token_exchange.py:13 | the successor list holds exactly the nodes `v` with an edge `n -> v` |
| Graphs.Neighbors | token_exchange.py:13 | `neighbors` of a `DiGraph` are its successors; of an undirected graph, every node sharing an edge with `n` in either stored orientation |
| Graphs.LinkedIn | token_exchange.py:13 | the neighbour list has no duplicates when the node list has none, and holds exactly the linked nodes |
| TokenExchange.NeighbourList | token_exchange.py:13 | the list a node reads holds exactly its linked nodes and has no duplicates |
| TokenExchange.WithSelf | token_exchange.py:18-22 | `neighbors_with_self` holds the neighbours plus the node itself exactly when it has a self-loop, and stays duplicate-free |
| TokenExchange.Outgoing | token_exchange.py:13-22 | the per-node list the balance is split over (the laws below are stated over it): exactly the nodes linked to the sender, plus the sender itself when it has a self-loop, each once |
| TokenExchange.Skips | token_exchange.py:15 | the per-node skip rule: a node is skipped exactly when no node is linked to it or its balance is exactly zero |
| TokenExchange.Sends | token_exchange.py:24-29 | the per-node transfers: none for a skipped node, otherwise one per outgoing node, each from the sender to an outgoing node |
| TokenExchange.Shares | token_exchange.py:27-29 | one transfer of `share` from the sender to each outgoing node, in order |
| TokenExchange.Schedule | token_exchange.py:11-32 | the scheduling loop keeps the set of nodes with balances and only schedules transfers to nodes that hold a balance |
| TokenExchange.Apply | token_exchange.py:35-36 | applying transfers changes balances but not which nodes hold one |
| TokenExchange.Round | token_exchange.py:9-36 | a round changes only balances: nodes, edges, weights and direction are untouched |
| TokenExchange.FirstFailure | token_exchange.py:11-13 | the loop raises exactly when some node lacks a balance (`KeyError` raised while visiting the first such node; the model records that node, while Python's exception carries only the key `'tokens'`) or when `directed` is asked of an undirected graph with a node whose balance is read first (`AttributeError`) |
| TokenExchange.TokenExchangeRound | token_exchange.py:2-36 | the round succeeds exactly when every node has a balance and, in directed mode, the graph is a `DiGraph` or has no nodes; on success only balances change and an empty graph is returned as is; an `AttributeError` leaves the graph unchanged, and a `KeyError` (recorded with the first node of the loop without a balance) leaves it with the balances of the interrupted loop |
| TokenExchange.FirstMissing | token_exchange.py:11-12 | the `KeyError` is raised at the first node of the loop without a balance: every earlier node has one |
| TokenExchange.Interrupted | token_exchange.py:11-32 | the balances left by a loop stopped at a given node keep the same set of nodes, and are untouched when it stops at the first node |
| TokenExchangeLaws.InterruptedRoundLosesTransfers | token_exchange.py:11-32 | after a `KeyError` the senders before the failing node hold only what they keep, every other balance is unchanged, and their total has fallen by exactly the amount they scheduled, which is never delivered |
| TokenExchangeLaws.SelfLoopCountedOnce | token_exchange.py:18-22 | a self-looped node is already its own neighbour, so it occupies exactly one outgoing slot and the append never fires |
| TokenExchangeLaws.OutgoingByMode | token_exchange.py:13 | directed mode sends to successors; undirected mode sends to all neighbours of an undirected graph and to successors of a `DiGraph` |
| TokenExchangeLaws.OutgoingWithinNodes | token_exchange.py:13-22 | the outgoing list is duplicate-free and contains only nodes of the graph |
| TokenExchangeLaws.SendsWholeBalance | token_exchange.py:24-32 | a sender's transfers add up to exactly its starting balance, which it gives away; a skipped node sends nothing |
| TokenExchangeLaws.EqualShares | token_exchange.py:24-29 | a sending node schedules one transfer per outgoing node, from itself, each of `balance / |outgoing|` |
| TokenExchangeLaws.SendsMatchShareTo | token_exchange.py:24-29 | the transfers of one sender deliver to every node exactly its reference share: `balance / |outgoing|` to each outgoing node, nothing to others |
| TokenExchangeLaws.ScheduledTransfers | token_exchange.py:11-32 | the scheduled list is every node's transfers in node order, each computed from that node's balance at the start of the round |
| TokenExchangeLaws.ScheduledBalances | token_exchange.py:15-16 | after scheduling, a skipped node keeps its balance, a sender holds zero, and nodes outside the loop are untouched |
| TokenExchangeLaws.KeptPlusSent | token_exchange.py:31-32 | what senders keep plus what they schedule equals their starting total |
| TokenExchangeLaws.ApplyAdds | token_exchange.py:35-36 | applying adds to each node exactly the amounts addressed to it |
| TokenExchangeLaws.ApplyTotal | token_exchange.py:35-36 | applying transfers to graph nodes raises the total by the sum of their amounts |
| TokenExchangeLaws.RoundPhases | token_exchange.py:9-36 | a round is scheduling then applying: the scheduled list is every node's transfers from its starting balance, and each visited node holds only what it keeps when the transfers are applied |
| TokenExchangeLaws.RoundMatchesReference | token_exchange.py:9-36 | every new balance equals the closed-form reference: what the node keeps plus its share from every node that sends to it; a skipped node keeps its balance and receives; a sender's new balance is exactly what it receives |
| TokenExchangeLaws.RoundAt | token_exchange.py:9-36 | the pointwise form of the reference equation for one node |
| TokenExchangeLaws.Conservation | token_exchange.py:9-36 | the sum of all balances after a round equals the sum before |
| TokenExchangeLaws.RoundKeepsNonNegative | token_exchange.py:11-36 | non-negative balances stay non-negative |
| TokenExchangeLaws.InflowPermutation | token_exchange.py:11 | the inflow a node receives is the same for any ordering of the senders |
| TokenExchangeLaws.ShareToIgnoresNodeOrder | token_exchange.py:13-25 | the skip decision and each share do not depend on the order of the node list |
| TokenExchangeLaws.RoundIgnoresNodeOrder | token_exchange.py:9-36 | visiting the nodes in any order yields the same balances (synchronous semantics) |
| TokenExchangeLaws.RoundIgnoresWeights | token_exchange.py:2-36 | the `weighted` flag and the edge weights never change whether a round succeeds or what it computes |
| TokenExchangeExamples.LoneSelfLoopKeepsAll | tests/test_token_exchange.py:4-14 | `token_exchange_round(G, directed=True)` on a lone self-looped node with 10 tokens raises nothing and leaves 10 |
| TokenExchangeExamples.IsolatedNodeKeepsAll | tests/test_token_exchange.py:16-25 | `token_exchange_round(G, directed=True)` on a lone node without edges raises nothing and leaves 10 |
| TokenExchangeExamples.FanSplitsEvenly | tests/test_token_exchange.py:27-53 | a node with edges to two empty nodes, and optionally a self-loop, splits its balance evenly over two or three slots and keeps a share only through the self-loop |
| TokenExchangeExamples.EvenSplitTwoSuccessors | tests/test_token_exchange.py:27-39 | `token_exchange_round(G, directed=True)` with A=10 and edges to B and C raises nothing and ends with A=0, B=5, C=5 |
| TokenExchangeExamples.EvenSplitWithSelfLoop | tests/test_token_exchange.py:41-53 | `token_exchange_round(G, directed=True)` with A=9 and edges to B, C and itself raises nothing and ends with 3, 3, 3 |
| TokenExchangeExamples.TriangleRotates | tests/test_token_exchange.py:55-64 | on the directed triangle every balance moves one step along the cycle |
| TokenExchangeExamples.TriangleConserves | tests/test_token_exchange.py:55-67 | `token_exchange_round(G, directed=True)` on the triangle holding 5, 10 and 15 raises nothing and still holds 30 |
| TokenExchangeExamples.KeyErrorLosesTokens | token_exchange.py:11-32 | node 0 with 10 tokens sending to node 1, which has no balance: the round raises `KeyError` while visiting node 1 and leaves node 0 with 0 tokens |
| GraphUtils.Uniform | graph_utils.py:7 | `random.uniform(lo, hi)` lies between the two bounds, in either order, and hits each bound at the extreme draws |
| GraphUtils.AssignRandomWeights | graph_utils.py:4-7 | every edge gets a weight in `[min_weight, max_weight]`; nodes, edges, balances and direction are unchanged; well-formedness is kept |
| GraphUtils.AssignedWeightsDoNotChangeRound | graph_utils.py:4-7 | whatever weights are drawn, a round moves the same tokens as before |
| GraphUtils.DirectedEdges | graph_utils.py:16-25 | a directed edge is produced exactly when its orientation was kept by its input edge or it reverses an input edge drawn to add the reverse |
| GraphUtils.RandomizeEdgeDirections | graph_utils.py:9-26 | a new `DiGraph` with the same nodes and balances; every input edge yields at least one direction; every output edge comes from an input edge whose draw produced it, kept or reversed; each output edge carries that input edge's weight |
| GraphUtils.ReversedPairSwapsWeights | graph_utils.py:21-25 | a `DiGraph` with `(0, 1)` of weight 1 and `(1, 0)` of weight 2, both reversed: each output edge carries the weight of the input edge that produced it, so the weights trade places |
| GraphUtils.DirectionsFollowDraws | graph_utils.py:16-25 | an edge `(u, v)` is emitted iff the draw was bidirectional or forward, and `(v, u)` iff bidirectional or backward; a self-loop is always emitted |
| GraphUtils.SelfLoopStays | graph_utils.py:16-25 | a self-loop `(u, u)` maps to `(u, u)` |
| GraphUtils.CertainlyBidirectional | graph_utils.py:17-20 | with `bidirectional_prob >= 1` every edge appears in both directions |
| GraphUtils.NeverBidirectional | graph_utils.py:21-25 | with `bidirectional_prob <= 0` every edge between distinct nodes appears in exactly the one direction the coin chose |
| GraphUtils.RandomizedWellFormed | graph_utils.py:14-26 | the result is a well-formed `DiGraph`, and its nodes hold balances exactly when the input's did |
| GraphUtils.AddRandomSelfLoops | graph_utils.py:28-35 | only self-loops at nodes whose draw fell below `p` are added; no node, edge or weight is removed |
| GraphUtils.SelfLoopExtremes | graph_utils.py:33-35 | with `self_loop_prob <= 0` the graph is unchanged; with `self_loop_prob >= 1` every node has a self-loop |
| GraphUtils.SelfLoopsIdempotent | graph_utils.py:33-35 | adding a self-loop where one exists changes nothing, so a second pass with the same draws is a no-op |
| GraphUtils.SelfLoopJoinsOutgoing | graph_utils.py:33-35 | a node that gains a self-loop takes exactly one outgoing slot for itself in the next round |
| GraphUtils.InitializeTokens | graph_utils.py:61-64 | every node's balance becomes `t`; nodes, edges and weights are unchanged |
| GraphUtils.InitializedRound | graph_utils.py:61-64 | after initialisation the graph holds `|nodes| * t` tokens, a round fails only for want of successors, and a round keeps that total |

## Left out

- main.py: interactive prompts, menu handling, layout choice and the animation loop are I/O orchestration.
- visualization.py: rendering, colormap normalisation and float width scaling are display code.
- `create_graph` (graph_utils.py:37-59): a dispatch over networkx graph generators, which are not part of this model.
- Random distributions: every draw is an oracle argument. Uniformity and seeding are not modelled.
- Float rounding: balances and weights are exact reals. The source's conservation holds only up to rounding.
- networkx internals: adjacency dictionaries and `add_edge` de-duplication are modelled as a set of pairs, and node order as a sequence.
- Default argument values are not modelled: `weighted=False` and `directed=False` (token_exchange.py:2), `min_weight=1` and `max_weight=5` (graph_utils.py:4), `bidirectional_prob=0.2` (graph_utils.py:9), `self_loop_prob=0.1` (graph_utils.py:28) and `initial_tokens=5` (graph_utils.py:61). Every argument is explicit.
- Neighbour order: networkx lists neighbours in adjacency insertion order. The model lists them in node order. The balances after a round depend only on which nodes an outgoing list holds and how many, not on their order (`TokenExchangeLaws.RoundMatchesReference`).
- The node in `TokenExchange.MissingTokens`: Python's `KeyError('tokens')` names only the missing key, so a caller of `token_exchange_round` cannot tell which node failed. The model records the node the loop was visiting.
- Node attributes other than `tokens` and edge attributes other than `weight` are not modelled. They are copied the same way as those two.
- GraphUtils.RandomizeEdgeDirections: the source gives each output edge the attributes of the input edge or edges that produced it; when both `(u, v)` and `(v, u)` of a directed input produce the same output edge (one kept, the other reversed or made bidirectional), `add_edge` merges their attributes in edge-visit order, the later overriding the earlier. The model's edge set has no visit order, so in that case it gives the output edge the weight of the input edge with the same orientation, which can differ from the source's; an output edge produced by one input edge alone carries that edge's weight, as in the source.
- GraphUtils.DirectionsFollowDraws: stated for undirected inputs only, the case the function is documented for.
- In-place mutation: the source mutates the graph (a round, weights, self-loops, balances). The model returns the updated graph as a new value.
