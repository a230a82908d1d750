/**
 One round of token exchange (token_exchange.py), written the way the source
 computes it: a scheduling pass over the nodes that zeroes every sender and
 records its transfers, followed by a pass that applies the transfers.
 */
module TokenExchange {
  import opened Graphs

  /** One entry of the `transfers` list. */
  datatype Transfer = Transfer(sender: Node, recipient: Node, amount: real)

  /** The exceptions a round can raise. */
  datatype RoundError =
    | MissingTokens(node: Node)  // KeyError('tokens'), raised while visiting `node`; Python's exception does not name the node
    | NoSuccessors               // `directed` asked of an undirected graph (AttributeError)

  /** A raised exception together with the graph as the caller finds it
      afterwards: the scheduling loop may already have zeroed some senders,
      and their transfers are never applied. */
  datatype Failure = Failure(cause: RoundError, left: Graph)

  /** The list read at token_exchange.py:13: `successors` in directed mode,
      `neighbors` otherwise. */
  function NeighbourList(g: Graph, n: Node, directed: bool): (r: seq<Node>)
    requires directed ==> g.directed
    ensures forall v :: v in r <==> v in g.nodes && Linked(g, n, v, g.directed)
    ensures Distinct(g.nodes) ==> Distinct(r)
  {
    if directed then Successors(g, n) else Neighbors(g, n)
  }

  /** `neighbors_with_self`: the list with `n` appended when `n` has a
      self-loop and is not already in it. */
  function WithSelf(g: Graph, n: Node, nbrs: seq<Node>): (r: seq<Node>)
    ensures forall v :: v in r <==> v in nbrs || (v == n && HasSelfLoop(g, n))
    ensures Distinct(nbrs) ==> Distinct(r)
    ensures |nbrs| <= |r|
  {
    if HasSelfLoop(g, n) && n !in nbrs then nbrs + [n] else nbrs
  }

  /** The nodes a sender splits its balance among: the nodes linked to it,
      and itself when it has a self-loop, each once. */
  function Outgoing(g: Graph, n: Node, directed: bool): (r: seq<Node>)
    requires directed ==> g.directed
    ensures forall v :: v in r <==> (v in g.nodes && Linked(g, n, v, g.directed)) || (v == n && HasSelfLoop(g, n))
    ensures Distinct(g.nodes) ==> Distinct(r)
  {
    WithSelf(g, n, NeighbourList(g, n, directed))
  }

  /** The skip rule: no neighbours, or a balance of exactly zero. */
  predicate Skips(g: Graph, directed: bool, tok: map<Node, real>, n: Node)
    requires n in tok && (directed ==> g.directed)
    ensures Skips(g, directed, tok, n) <==>
      (forall v :: v in g.nodes ==> !Linked(g, n, v, g.directed)) || tok[n] == 0.0
  {
    var nbrs := NeighbourList(g, n, directed);
    assert nbrs != [] ==> nbrs[0] in nbrs;
    nbrs == [] || tok[n] == 0.0
  }

  /** One transfer of `share` from `sender` to each member of `out`, in order. */
  function Shares(sender: Node, out: seq<Node>, share: real): (r: seq<Transfer>)
    ensures |r| == |out|
    ensures forall i :: 0 <= i < |r| ==> r[i] == Transfer(sender, out[i], share)
  {
    if out == [] then [] else [Transfer(sender, out[0], share)] + Shares(sender, out[1..], share)
  }

  /** The transfers node `n` schedules when its balance is `tok[n]`: none
      when it is skipped, otherwise one from `n` to each outgoing node. */
  function Sends(g: Graph, directed: bool, tok: map<Node, real>, n: Node): (r: seq<Transfer>)
    requires n in tok && (directed ==> g.directed)
    ensures |r| == if Skips(g, directed, tok, n) then 0 else |Outgoing(g, n, directed)|
    ensures forall t :: t in r ==> t.sender == n && t.recipient in Outgoing(g, n, directed)
  {
    if Skips(g, directed, tok, n) then []
    else
      var out := Outgoing(g, n, directed);
      Shares(n, out, tok[n] / (|out| as real))
  }

  /** The scheduling loop (token_exchange.py:11-32) over the nodes `ns` still
      to visit, with the balances `tok` as mutated so far and the transfers
      `ts` scheduled so far. Each visited node reads its CURRENT balance. */
  function Schedule(g: Graph, directed: bool, ns: seq<Node>, tok: map<Node, real>, ts: seq<Transfer>)
    : (r: (map<Node, real>, seq<Transfer>))
    requires directed ==> g.directed
    requires forall n :: n in ns ==> n in tok
    ensures r.0.Keys == tok.Keys
    ensures (forall v :: v in g.nodes ==> v in tok) && (forall t :: t in ts ==> t.recipient in tok) ==>
              forall t :: t in r.1 ==> t.recipient in tok
    decreases |ns|
  {
    if ns == [] then (tok, ts)
    else
      var n := ns[0];
      var tokens := tok[n];
      var nbrs := NeighbourList(g, n, directed);
      if nbrs == [] || tokens == 0.0 then Schedule(g, directed, ns[1..], tok, ts)
      else
        var out := WithSelf(g, n, nbrs);
        var share := tokens / (|out| as real);
        Schedule(g, directed, ns[1..], tok[n := 0.0], ts + Shares(n, out, share))
  }

  /** The application loop (token_exchange.py:35-36). */
  function Apply(tok: map<Node, real>, ts: seq<Transfer>): (r: map<Node, real>)
    requires forall t :: t in ts ==> t.recipient in tok
    ensures r.Keys == tok.Keys
  {
    if ts == [] then tok
    else
      var t := ts[0];
      Apply(tok[t.recipient := tok[t.recipient] + t.amount], ts[1..])
  }

  /** `token_exchange_round` once it is known not to raise: schedule over the
      node order of the graph, then apply. Only balances change. */
  function Round(g: Graph, directed: bool): (r: Graph)
    requires HasTokens(g) && (directed ==> g.directed)
    ensures r.directed == g.directed && r.nodes == g.nodes
    ensures r.edges == g.edges && r.weight == g.weight
    ensures r.tokens.Keys == g.tokens.Keys
  {
    var scheduled := Schedule(g, directed, g.nodes, g.tokens, []);
    g.(tokens := Apply(scheduled.0, scheduled.1))
  }

  /** The position of the first node of `ns` without a balance, or `|ns|`. */
  function FirstMissing(g: Graph, ns: seq<Node>): (i: nat)
    ensures i <= |ns|
    ensures forall j :: 0 <= j < i ==> ns[j] in g.tokens
    ensures i < |ns| ==> ns[i] !in g.tokens
  {
    if ns == [] || ns[0] !in g.tokens then 0 else 1 + FirstMissing(g, ns[1..])
  }

  /** The first exception the scheduling loop raises when it visits `ns` in
      order: the balance is read (line 12) before the neighbour list (line 13). */
  function FirstFailure(g: Graph, directed: bool, ns: seq<Node>): (r: Option<RoundError>)
    ensures r.None? <==> (forall n :: n in ns ==> n in g.tokens) && (directed && !g.directed ==> ns == [])
    ensures r.Some? && r.value.MissingTokens? ==>
      r.value.node in ns && r.value.node !in g.tokens && r.value.node == ns[FirstMissing(g, ns)]
    ensures r == Some(NoSuccessors) <==> directed && !g.directed && ns != [] && ns[0] in g.tokens
  {
    if ns == [] then None
    else if ns[0] !in g.tokens then Some(MissingTokens(ns[0]))
    else if directed && !g.directed then Some(NoSuccessors)
    else FirstFailure(g, directed, ns[1..])
  }

  /** The balances the scheduling loop leaves behind when it stops at
      position `i` of the node list: the senders before it are zeroed. */
  function Interrupted(g: Graph, directed: bool, i: nat): (r: map<Node, real>)
    requires i <= |g.nodes| && forall j :: 0 <= j < i ==> g.nodes[j] in g.tokens
    requires 0 < i ==> (directed ==> g.directed)
    ensures r.Keys == g.tokens.Keys
    ensures i == 0 ==> r == g.tokens
  {
    if i == 0 then g.tokens else Schedule(g, directed, g.nodes[..i], g.tokens, []).0
  }

  /** `token_exchange_round(G, weighted, directed)`. The `weighted` flag is
      accepted and never read. An `AttributeError` is raised at the first
      node, before anything changes; a `KeyError` is raised at the first node
      without a balance, after the nodes before it were scheduled (senders
      among them zeroed, their transfers lost). */
  function TokenExchangeRound(g: Graph, weighted: bool, directed: bool): (r: Result<Graph, Failure>)
    ensures r.Ok? <==> HasTokens(g) && (directed && !g.directed ==> g.nodes == [])
    ensures r.Ok? ==> r.value.nodes == g.nodes && r.value.edges == g.edges && r.value.weight == g.weight
    ensures r.Ok? && g.nodes == [] ==> r.value == g
    ensures r.Ok? && g.nodes != [] ==> r.value == Round(g, directed)
    ensures r.Err? ==> r.error.left.tokens.Keys == g.tokens.Keys && r.error.left == g.(tokens := r.error.left.tokens)
    ensures r.Err? && r.error.cause.MissingTokens? ==>
      && r.error.cause.node in g.nodes && r.error.cause.node !in g.tokens
      && FirstMissing(g, g.nodes) < |g.nodes| && r.error.cause.node == g.nodes[FirstMissing(g, g.nodes)]
      && (directed && !g.directed ==> FirstMissing(g, g.nodes) == 0)
      && r.error.left.tokens == Interrupted(g, directed, FirstMissing(g, g.nodes))
    ensures r.Err? && r.error.cause == NoSuccessors <==> directed && !g.directed && g.nodes != [] && g.nodes[0] in g.tokens
    ensures r.Err? && r.error.cause == NoSuccessors ==> r.error.left == g
  {
    match FirstFailure(g, directed, g.nodes)
    case Some(NoSuccessors) => Err(Failure(NoSuccessors, g))
    case Some(MissingTokens(n)) =>
      Err(Failure(MissingTokens(n), g.(tokens := Interrupted(g, directed, FirstMissing(g, g.nodes)))))
    case None => if g.nodes == [] then Ok(g) else Ok(Round(g, directed))
  }
}
