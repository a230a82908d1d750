/**
 What one round of token exchange guarantees: every share is computed from the
 sender's balance at the start of the round, a round matches a closed-form
 reference, tokens are conserved, balances stay non-negative, and the result
 depends neither on the node order nor on edge weights.
 */
module TokenExchangeLaws {
  import opened Graphs
  import opened TokenExchange

  // ---------------------------------------------------------------------
  // Reference definitions
  // ---------------------------------------------------------------------

  /** Sum of the balances of `ns`. */
  function Total(tok: map<Node, real>, ns: seq<Node>): real
    requires forall n :: n in ns ==> n in tok
  {
    if ns == [] then 0.0 else var n := ns[0]; tok[n] + Total(tok, ns[1..])
  }

  /** Sum of the amounts of a list of transfers. */
  function Amount(ts: seq<Transfer>): real {
    if ts == [] then 0.0 else ts[0].amount + Amount(ts[1..])
  }

  /** Sum of the amounts of a list of transfers addressed to `n`. */
  function Received(ts: seq<Transfer>, n: Node): real {
    if ts == [] then 0.0
    else (if ts[0].recipient == n then ts[0].amount else 0.0) + Received(ts[1..], n)
  }

  /** The transfers the nodes `ns` schedule from the balances `tok`. */
  function AllSends(g: Graph, directed: bool, tok: map<Node, real>, ns: seq<Node>): seq<Transfer>
    requires directed ==> g.directed
    requires forall n :: n in ns ==> n in tok
  {
    if ns == [] then [] else Sends(g, directed, tok, ns[0]) + AllSends(g, directed, tok, ns[1..])
  }

  /** The part of its own balance a node still holds once scheduling is done. */
  function Kept(g: Graph, directed: bool, tok: map<Node, real>, n: Node): real
    requires n in tok && (directed ==> g.directed)
  {
    if Skips(g, directed, tok, n) then tok[n] else 0.0
  }

  /** The part of its own balance a node gives away. */
  function Sent(g: Graph, directed: bool, tok: map<Node, real>, n: Node): real
    requires n in tok && (directed ==> g.directed)
  {
    if Skips(g, directed, tok, n) then 0.0 else tok[n]
  }

  /** What `m` passes to `n`: an equal share of m's starting balance when `n`
      is among m's outgoing nodes, and nothing otherwise. */
  function ShareTo(g: Graph, directed: bool, tok: map<Node, real>, m: Node, n: Node): real
    requires m in tok && (directed ==> g.directed)
  {
    if Skips(g, directed, tok, m) || n !in Outgoing(g, m, directed) then 0.0
    else tok[m] / (|Outgoing(g, m, directed)| as real)
  }

  /** Everything the nodes `ns` pass to `n`. */
  function Inflow(g: Graph, directed: bool, tok: map<Node, real>, ns: seq<Node>, n: Node): real
    requires directed ==> g.directed
    requires forall m :: m in ns ==> m in tok
  {
    if ns == [] then 0.0 else ShareTo(g, directed, tok, ns[0], n) + Inflow(g, directed, tok, ns[1..], n)
  }

  /** The balance of `n` after a round, stated without transfers: what it
      kept of its own plus what every node passed to it. */
  function Expected(g: Graph, directed: bool, n: Node): real
    requires HasTokens(g) && (directed ==> g.directed) && n in g.tokens
  {
    (if n in g.nodes then Kept(g, directed, g.tokens, n) else g.tokens[n])
      + Inflow(g, directed, g.tokens, g.nodes, n)
  }

  // ---------------------------------------------------------------------
  // The outgoing list
  // ---------------------------------------------------------------------

  /** A node with a self-loop is already its own neighbour, so the append at
      token_exchange.py:20-22 never fires and the node is listed once. */
  lemma SelfLoopCountedOnce(g: Graph, n: Node, directed: bool)
    requires WellFormed(g) && (directed ==> g.directed)
    requires HasSelfLoop(g, n)
    ensures n in NeighbourList(g, n, directed)
    ensures Outgoing(g, n, directed) == NeighbourList(g, n, directed)
    ensures forall i, j :: 0 <= i < j < |Outgoing(g, n, directed)| ==>
              Outgoing(g, n, directed)[i] != Outgoing(g, n, directed)[j]
  {
  }

  /** Direction mode: in directed mode the outgoing nodes are exactly the
      successors; otherwise they are `G.neighbors`, which is the successors of
      a directed graph and every adjacent node of an undirected one. */
  lemma OutgoingByMode(g: Graph, n: Node, directed: bool)
    requires WellFormed(g) && (directed ==> g.directed)
    ensures g.directed ==>
      forall v :: v in Outgoing(g, n, directed) <==> v in g.nodes && (n, v) in g.edges
    ensures !g.directed ==>
      forall v :: v in Outgoing(g, n, directed) <==>
        v in g.nodes && ((n, v) in g.edges || (v, n) in g.edges)
  {
  }

  lemma OutgoingWithinNodes(g: Graph, n: Node, directed: bool)
    requires WellFormed(g) && (directed ==> g.directed)
    ensures Distinct(Outgoing(g, n, directed))
    ensures forall v :: v in Outgoing(g, n, directed) ==> v in g.nodes
  {
  }

  // ---------------------------------------------------------------------
  // Sums over transfer lists
  // ---------------------------------------------------------------------

  lemma {:induction false} AmountConcat(a: seq<Transfer>, b: seq<Transfer>)
    ensures Amount(a + b) == Amount(a) + Amount(b)
  {
    if a != [] {
      assert (a + b)[1..] == a[1..] + b;
      AmountConcat(a[1..], b);
    } else {
      assert a + b == b;
    }
  }

  lemma {:induction false} ReceivedConcat(a: seq<Transfer>, b: seq<Transfer>, n: Node)
    ensures Received(a + b, n) == Received(a, n) + Received(b, n)
  {
    if a != [] {
      assert (a + b)[1..] == a[1..] + b;
      ReceivedConcat(a[1..], b, n);
    } else {
      assert a + b == b;
    }
  }

  lemma {:induction false} SharesAmount(sender: Node, out: seq<Node>, share: real)
    ensures Amount(Shares(sender, out, share)) == (|out| as real) * share
  {
    if out != [] {
      SharesAmount(sender, out[1..], share);
      assert Amount(Shares(sender, out, share)) == share + Amount(Shares(sender, out[1..], share));
      assert (|out| as real) * share == share + ((|out| - 1) as real) * share;
    }
  }

  lemma {:induction false} SharesReceived(sender: Node, out: seq<Node>, share: real, n: Node)
    requires Distinct(out)
    ensures Received(Shares(sender, out, share), n) == if n in out then share else 0.0
  {
    if out != [] {
      assert Distinct(out[1..]);
      SharesReceived(sender, out[1..], share, n);
      assert n in out <==> n == out[0] || n in out[1..];
      assert out[0] !in out[1..];
    }
  }

  /** Row-stochastic split, in total: a sender's transfers add up to exactly
      its starting balance, and a skipped node sends nothing. */
  lemma SendsWholeBalance(g: Graph, directed: bool, tok: map<Node, real>, m: Node)
    requires WellFormed(g) && (directed ==> g.directed) && m in tok
    ensures Amount(Sends(g, directed, tok, m)) == Sent(g, directed, tok, m)
  {
    if !Skips(g, directed, tok, m) {
      var nbrs := NeighbourList(g, m, directed);
      var out := WithSelf(g, m, nbrs);
      assert nbrs != [] && |nbrs| <= |out|;
      assert Sends(g, directed, tok, m) == Shares(m, out, tok[m] / (|out| as real));
      SharesSplitWhole(m, out, tok[m]);
      assert Sent(g, directed, tok, m) == tok[m];
    } else {
      assert Sends(g, directed, tok, m) == [];
      assert Sent(g, directed, tok, m) == 0.0;
    }
  }

  /** Equal shares of `x` over a non-empty list add up to `x`. */
  lemma SharesSplitWhole(sender: Node, out: seq<Node>, x: real)
    requires out != []
    ensures Amount(Shares(sender, out, x / (|out| as real))) == x
  {
    var k := |out| as real;
    SharesAmount(sender, out, x / k);
    assert k * (x / k) == x;
  }

  /** Row-stochastic split, per transfer: a sender schedules one transfer per
      outgoing node, each of an equal share of its starting balance. */
  lemma EqualShares(g: Graph, directed: bool, tok: map<Node, real>, m: Node)
    requires WellFormed(g) && (directed ==> g.directed) && m in tok
    requires !Skips(g, directed, tok, m)
    ensures |Sends(g, directed, tok, m)| == |Outgoing(g, m, directed)| > 0
    ensures forall t :: t in Sends(g, directed, tok, m) ==>
      && t.sender == m && t.recipient in Outgoing(g, m, directed)
      && t.amount == tok[m] / (|Outgoing(g, m, directed)| as real)
  {
  }

  /** The transfers of `m` deliver to each node exactly its reference share. */
  lemma SendsMatchShareTo(g: Graph, directed: bool, tok: map<Node, real>, m: Node, n: Node)
    requires WellFormed(g) && (directed ==> g.directed) && m in tok
    ensures Received(Sends(g, directed, tok, m), n) == ShareTo(g, directed, tok, m, n)
  {
    if !Skips(g, directed, tok, m) {
      var out := Outgoing(g, m, directed);
      OutgoingWithinNodes(g, m, directed);
      SharesReceived(m, out, tok[m] / (|out| as real), n);
    }
  }

  // ---------------------------------------------------------------------
  // The scheduling pass
  // ---------------------------------------------------------------------

  /** `AllSends` reads a node's balance only at that node. */
  lemma {:induction false} AllSendsFrame(g: Graph, directed: bool, tok: map<Node, real>, tok': map<Node, real>, ns: seq<Node>)
    requires directed ==> g.directed
    requires forall n :: n in ns ==> n in tok && n in tok' && tok[n] == tok'[n]
    ensures AllSends(g, directed, tok, ns) == AllSends(g, directed, tok', ns)
  {
    if ns != [] {
      AllSendsFrame(g, directed, tok, tok', ns[1..]);
    }
  }

  /** One iteration of the scheduling loop: a skipped node leaves the state
      alone; any other node is zeroed and its transfers are appended. */
  lemma ScheduleStep(g: Graph, directed: bool, ns: seq<Node>, tok: map<Node, real>, ts: seq<Transfer>)
    requires directed ==> g.directed
    requires ns != [] && forall n :: n in ns ==> n in tok
    ensures Skips(g, directed, tok, ns[0]) ==>
      Schedule(g, directed, ns, tok, ts) == Schedule(g, directed, ns[1..], tok, ts)
    ensures !Skips(g, directed, tok, ns[0]) ==>
      Schedule(g, directed, ns, tok, ts)
        == Schedule(g, directed, ns[1..], tok[ns[0] := 0.0], ts + Sends(g, directed, tok, ns[0]))
  {
  }

  /** Synchronous semantics, for the transfers. Although the loop zeroes
      senders as it goes, each node is visited once and only zeroes itself, so
      every node's transfers are computed from its balance at the start of the
      round. */
  lemma {:induction false} ScheduledTransfers(g: Graph, directed: bool, ns: seq<Node>, tok: map<Node, real>, ts: seq<Transfer>)
    requires directed ==> g.directed
    requires Distinct(ns) && forall n :: n in ns ==> n in tok
    ensures Schedule(g, directed, ns, tok, ts).1 == ts + AllSends(g, directed, tok, ns)
    decreases |ns|
  {
    if ns != [] {
      var n := ns[0];
      var rest := ns[1..];
      assert Distinct(rest) && n !in rest;
      var sent := Sends(g, directed, tok, n);
      var tok1 := if Skips(g, directed, tok, n) then tok else tok[n := 0.0];
      ScheduleStep(g, directed, ns, tok, ts);
      if Skips(g, directed, tok, n) {
        assert ts + sent == ts;
      }
      ScheduledTransfers(g, directed, rest, tok1, ts + sent);
      AllSendsFrame(g, directed, tok, tok1, rest);
      ConcatAssoc(ts, sent, AllSends(g, directed, tok, rest));
    }
  }

  lemma ConcatAssoc(a: seq<Transfer>, b: seq<Transfer>, c: seq<Transfer>)
    ensures (a + b) + c == a + (b + c)
  {
  }

  /** Synchronous semantics, for the balances: once scheduling is done each
      visited node holds exactly what it keeps, and the others are untouched. */
  lemma {:induction false} ScheduledBalances(g: Graph, directed: bool, ns: seq<Node>, tok: map<Node, real>, ts: seq<Transfer>)
    requires directed ==> g.directed
    requires Distinct(ns) && forall n :: n in ns ==> n in tok
    ensures forall n :: n in tok ==>
      Schedule(g, directed, ns, tok, ts).0[n] == if n in ns then Kept(g, directed, tok, n) else tok[n]
    decreases |ns|
  {
    if ns != [] {
      var n := ns[0];
      var rest := ns[1..];
      assert Distinct(rest);
      assert n !in rest;
      ScheduleStep(g, directed, ns, tok, ts);
      if Skips(g, directed, tok, n) {
        ScheduledBalances(g, directed, rest, tok, ts);
      } else {
        var tok1 := tok[n := 0.0];
        ScheduledBalances(g, directed, rest, tok1, ts + Sends(g, directed, tok, n));
        forall m | m in rest
          ensures Kept(g, directed, tok1, m) == Kept(g, directed, tok, m)
        {
        }
      }
    }
  }

  /** Zeroing the senders removes exactly what they send. */
  lemma {:induction false} KeptPlusSent(g: Graph, directed: bool, tok: map<Node, real>, zeroed: map<Node, real>, ns: seq<Node>)
    requires WellFormed(g) && (directed ==> g.directed)
    requires forall n :: n in ns ==> n in tok && n in zeroed && zeroed[n] == Kept(g, directed, tok, n)
    ensures Total(zeroed, ns) + Amount(AllSends(g, directed, tok, ns)) == Total(tok, ns)
  {
    if ns != [] {
      KeptPlusSent(g, directed, tok, zeroed, ns[1..]);
      AmountConcat(Sends(g, directed, tok, ns[0]), AllSends(g, directed, tok, ns[1..]));
      SendsWholeBalance(g, directed, tok, ns[0]);
    }
  }

  lemma {:induction false} AllSendsRecipients(g: Graph, directed: bool, tok: map<Node, real>, ns: seq<Node>)
    requires WellFormed(g) && (directed ==> g.directed)
    requires forall n :: n in ns ==> n in tok
    ensures forall t :: t in AllSends(g, directed, tok, ns) ==> t.recipient in g.nodes
  {
    if ns != [] {
      AllSendsRecipients(g, directed, tok, ns[1..]);
      OutgoingWithinNodes(g, ns[0], directed);
      forall t | t in AllSends(g, directed, tok, ns)
        ensures t.recipient in g.nodes
      {
        if t in Sends(g, directed, tok, ns[0]) {
          assert t.recipient in Outgoing(g, ns[0], directed);
        } else {
          assert t in AllSends(g, directed, tok, ns[1..]);
        }
      }
    }
  }

  /** The transfers that `ns` schedule deliver to `n` exactly its inflow. */
  lemma {:induction false} ReceivedAllSends(g: Graph, directed: bool, tok: map<Node, real>, ns: seq<Node>, n: Node)
    requires WellFormed(g) && (directed ==> g.directed)
    requires forall m :: m in ns ==> m in tok
    ensures Received(AllSends(g, directed, tok, ns), n) == Inflow(g, directed, tok, ns, n)
  {
    if ns != [] {
      ReceivedAllSends(g, directed, tok, ns[1..], n);
      ReceivedConcat(Sends(g, directed, tok, ns[0]), AllSends(g, directed, tok, ns[1..]), n);
      SendsMatchShareTo(g, directed, tok, ns[0], n);
    }
  }

  // ---------------------------------------------------------------------
  // The application pass
  // ---------------------------------------------------------------------

  lemma {:induction false} ApplyAdds(tok: map<Node, real>, ts: seq<Transfer>)
    requires forall t :: t in ts ==> t.recipient in tok
    ensures forall n :: n in tok ==> Apply(tok, ts)[n] == tok[n] + Received(ts, n)
  {
    if ts != [] {
      var t := ts[0];
      var tok1 := tok[t.recipient := tok[t.recipient] + t.amount];
      ApplyAdds(tok1, ts[1..]);
    }
  }

  lemma {:induction false} TotalFrame(a: map<Node, real>, b: map<Node, real>, ns: seq<Node>)
    requires forall n :: n in ns ==> n in a && n in b && a[n] == b[n]
    ensures Total(a, ns) == Total(b, ns)
  {
    if ns != [] {
      TotalFrame(a, b, ns[1..]);
    }
  }

  /** Adding `x` to one listed node adds `x` to the total. */
  lemma {:induction false} TotalBump(tok: map<Node, real>, ns: seq<Node>, k: Node, x: real)
    requires Distinct(ns) && k in ns
    requires forall n :: n in ns ==> n in tok
    ensures Total(tok[k := tok[k] + x], ns) == Total(tok, ns) + x
  {
    var tok1 := tok[k := tok[k] + x];
    assert Distinct(ns[1..]);
    if ns[0] == k {
      assert k !in ns[1..];
      TotalFrame(tok1, tok, ns[1..]);
    } else {
      TotalBump(tok, ns[1..], k, x);
    }
  }

  /** The transfers add exactly their amounts to the total. */
  lemma {:induction false} ApplyTotal(tok: map<Node, real>, ts: seq<Transfer>, ns: seq<Node>)
    requires Distinct(ns) && forall n :: n in ns ==> n in tok
    requires forall t :: t in ts ==> t.recipient in ns
    ensures Total(Apply(tok, ts), ns) == Total(tok, ns) + Amount(ts)
  {
    if ts != [] {
      var t := ts[0];
      var tok1 := tok[t.recipient := tok[t.recipient] + t.amount];
      ApplyTotal(tok1, ts[1..], ns);
      TotalBump(tok, ns, t.recipient, t.amount);
    }
  }

  // ---------------------------------------------------------------------
  // A round
  // ---------------------------------------------------------------------

  /** The two phases of a round: scheduling leaves every visited node with
      what it keeps and lists every node's transfers in node order; applying
      them gives the new balances. */
  lemma RoundPhases(g: Graph, directed: bool)
    requires WellFormed(g) && HasTokens(g) && (directed ==> g.directed)
    ensures var s := Schedule(g, directed, g.nodes, g.tokens, []);
      && s.1 == AllSends(g, directed, g.tokens, g.nodes)
      && (forall n :: n in g.tokens ==>
            s.0[n] == if n in g.nodes then Kept(g, directed, g.tokens, n) else g.tokens[n])
      && Round(g, directed).tokens == Apply(s.0, s.1)
  {
    ScheduledTransfers(g, directed, g.nodes, g.tokens, []);
    ScheduledBalances(g, directed, g.nodes, g.tokens, []);
    assert [] + AllSends(g, directed, g.tokens, g.nodes) == AllSends(g, directed, g.tokens, g.nodes);
  }

  /** The reference at a single node: what it keeps plus what every node
      sends it. */
  lemma RoundAt(g: Graph, directed: bool, n: Node)
    requires WellFormed(g) && HasTokens(g) && (directed ==> g.directed) && n in g.tokens
    ensures Round(g, directed).tokens[n]
      == (if n in g.nodes then Kept(g, directed, g.tokens, n) else g.tokens[n])
         + Inflow(g, directed, g.tokens, g.nodes, n)
  {
    var s := Schedule(g, directed, g.nodes, g.tokens, []);
    RoundPhases(g, directed);
    ApplyAdds(s.0, s.1);
    ReceivedAllSends(g, directed, g.tokens, g.nodes, n);
  }

  /** A round agrees with the closed-form reference at every node, so a
      skipped node ends with its old balance plus what it receives, and a
      sender ends with exactly what is addressed to it. */
  lemma RoundMatchesReference(g: Graph, directed: bool)
    requires WellFormed(g) && HasTokens(g) && (directed ==> g.directed)
    ensures forall n :: n in g.tokens ==> Round(g, directed).tokens[n] == Expected(g, directed, n)
    ensures forall n :: n in g.nodes && Skips(g, directed, g.tokens, n) ==>
      Round(g, directed).tokens[n] == g.tokens[n] + Inflow(g, directed, g.tokens, g.nodes, n)
    ensures forall n :: n in g.nodes && !Skips(g, directed, g.tokens, n) ==>
      Round(g, directed).tokens[n] == Inflow(g, directed, g.tokens, g.nodes, n)
  {
    forall n | n in g.tokens
      ensures Round(g, directed).tokens[n] == Expected(g, directed, n)
    {
      RoundAt(g, directed, n);
    }
  }

  /** Conservation: the sum of all balances is the same after a round. */
  lemma Conservation(g: Graph, directed: bool)
    requires WellFormed(g) && HasTokens(g) && (directed ==> g.directed)
    ensures Total(Round(g, directed).tokens, g.nodes) == Total(g.tokens, g.nodes)
  {
    var s := Schedule(g, directed, g.nodes, g.tokens, []);
    RoundPhases(g, directed);
    AllSendsRecipients(g, directed, g.tokens, g.nodes);
    ApplyTotal(s.0, s.1, g.nodes);
    KeptPlusSent(g, directed, g.tokens, s.0, g.nodes);
  }

  /** A round that raises `KeyError` at position `i` leaves every sender
      before it zeroed and every other balance as it was; what those senders
      scheduled is lost, so the total falls by exactly that amount. */
  lemma InterruptedRoundLosesTransfers(g: Graph, weighted: bool, directed: bool)
    requires WellFormed(g)
    requires TokenExchangeRound(g, weighted, directed).Err?
    requires TokenExchangeRound(g, weighted, directed).error.cause.MissingTokens?
    ensures var i := FirstMissing(g, g.nodes);
      var left := TokenExchangeRound(g, weighted, directed).error.left;
      && (0 < i ==> directed ==> g.directed)
      && (forall n :: n in g.tokens && n !in g.nodes[..i] ==> left.tokens[n] == g.tokens[n])
      && (0 < i ==> forall n :: n in g.nodes[..i] ==> left.tokens[n] == Kept(g, directed, g.tokens, n))
      && (0 < i ==> Total(left.tokens, g.nodes[..i]) + Amount(AllSends(g, directed, g.tokens, g.nodes[..i]))
                    == Total(g.tokens, g.nodes[..i]))
  {
    var i := FirstMissing(g, g.nodes);
    var left := TokenExchangeRound(g, weighted, directed).error.left;
    if 0 < i {
      var prefix := g.nodes[..i];
      assert Distinct(prefix);
      assert forall n :: n in prefix ==> n in g.tokens;
      ScheduledBalances(g, directed, prefix, g.tokens, []);
      KeptPlusSent(g, directed, g.tokens, left.tokens, prefix);
    }
  }

  lemma {:induction false} InflowNonNegative(g: Graph, directed: bool, tok: map<Node, real>, ns: seq<Node>, n: Node)
    requires directed ==> g.directed
    requires forall m :: m in ns ==> m in tok && 0.0 <= tok[m]
    ensures 0.0 <= Inflow(g, directed, tok, ns, n)
  {
    if ns != [] {
      InflowNonNegative(g, directed, tok, ns[1..], n);
    }
  }

  /** Non-negative balances stay non-negative. */
  lemma RoundKeepsNonNegative(g: Graph, directed: bool)
    requires WellFormed(g) && HasTokens(g) && (directed ==> g.directed)
    requires forall n :: n in g.tokens ==> 0.0 <= g.tokens[n]
    ensures forall n :: n in g.tokens ==> 0.0 <= Round(g, directed).tokens[n]
  {
    RoundMatchesReference(g, directed);
    forall n | n in g.tokens
      ensures 0.0 <= Round(g, directed).tokens[n]
    {
      InflowNonNegative(g, directed, g.tokens, g.nodes, n);
    }
  }

  // ---------------------------------------------------------------------
  // Independence of node order and of edge weights
  // ---------------------------------------------------------------------

  /** Removing one node from the list removes its share from the inflow. */
  lemma {:induction false} InflowRemove(g: Graph, directed: bool, tok: map<Node, real>, ns: seq<Node>, k: nat, n: Node)
    requires directed ==> g.directed
    requires forall m :: m in ns ==> m in tok
    requires k < |ns|
    ensures Inflow(g, directed, tok, ns, n)
      == ShareTo(g, directed, tok, ns[k], n) + Inflow(g, directed, tok, ns[..k] + ns[k + 1..], n)
  {
    if k > 0 {
      InflowRemove(g, directed, tok, ns[1..], k - 1, n);
      assert ns[..k] + ns[k + 1..] == [ns[0]] + (ns[1..][..k - 1] + ns[1..][k..]);
    } else {
      assert ns[..k] + ns[k + 1..] == ns[1..];
    }
  }

  lemma {:induction false} InflowPermutation(g: Graph, directed: bool, tok: map<Node, real>, a: seq<Node>, b: seq<Node>, n: Node)
    requires directed ==> g.directed
    requires Distinct(a) && Distinct(b)
    requires forall x :: x in a <==> x in b
    requires forall m :: m in a ==> m in tok
    ensures Inflow(g, directed, tok, a, n) == Inflow(g, directed, tok, b, n)
    decreases |a|
  {
    if a == [] {
      SameMembersSameLength(a, b);
    } else {
      var x := a[0];
      assert x in b;
      var k :| 0 <= k < |b| && b[k] == x;
      var b' := b[..k] + b[k + 1..];
      InflowRemove(g, directed, tok, b, k, n);
      RemoveAt(b, k);
      assert forall y :: y in a[1..] <==> y in a && y != x;
      assert Distinct(a[1..]);
      InflowPermutation(g, directed, tok, a[1..], b', n);
    }
  }

  lemma {:induction false} InflowCongruent(g: Graph, h: Graph, directed: bool, tok: map<Node, real>, ns: seq<Node>, n: Node)
    requires directed ==> g.directed && h.directed == g.directed
    requires forall m :: m in ns ==> m in tok
    requires forall m :: m in ns ==> ShareTo(g, directed, tok, m, n) == ShareTo(h, directed, tok, m, n)
    ensures Inflow(g, directed, tok, ns, n) == Inflow(h, directed, tok, ns, n)
  {
    if ns != [] {
      InflowCongruent(g, h, directed, tok, ns[1..], n);
    }
  }

  /** Listing the same nodes in another order lists the same outgoing nodes,
      possibly in another order, so every share is unchanged. */
  lemma ShareToIgnoresNodeOrder(g: Graph, order: seq<Node>, directed: bool, tok: map<Node, real>, m: Node, n: Node)
    requires WellFormed(g) && (directed ==> g.directed) && m in tok
    requires Distinct(order) && forall x :: x in order <==> x in g.nodes
    ensures Skips(g.(nodes := order), directed, tok, m) == Skips(g, directed, tok, m)
    ensures ShareTo(g.(nodes := order), directed, tok, m, n) == ShareTo(g, directed, tok, m, n)
  {
    var h := g.(nodes := order);
    var a := NeighbourList(g, m, directed);
    var b := NeighbourList(h, m, directed);
    assert forall v :: v in a <==> v in b;
    SameMembersSameLength(a, b);
    var oa := Outgoing(g, m, directed);
    var ob := Outgoing(h, m, directed);
    assert forall v :: v in oa <==> v in ob;
    SameMembersSameLength(oa, ob);
  }

  /** Synchronous semantics: a round gives the same balances whatever order
      the graph lists its nodes in. */
  lemma RoundIgnoresNodeOrder(g: Graph, order: seq<Node>, directed: bool)
    requires WellFormed(g) && HasTokens(g) && (directed ==> g.directed)
    requires Distinct(order) && forall x :: x in order <==> x in g.nodes
    ensures Round(g.(nodes := order), directed).tokens == Round(g, directed).tokens
  {
    forall n | n in g.tokens
      ensures Round(g.(nodes := order), directed).tokens[n] == Round(g, directed).tokens[n]
    {
      NodeOrderAt(g, order, directed, n);
    }
  }

  lemma NodeOrderAt(g: Graph, order: seq<Node>, directed: bool, n: Node)
    requires WellFormed(g) && HasTokens(g) && (directed ==> g.directed) && n in g.tokens
    requires Distinct(order) && forall x :: x in order <==> x in g.nodes
    ensures Round(g.(nodes := order), directed).tokens[n] == Round(g, directed).tokens[n]
  {
    var h := g.(nodes := order);
    assert WellFormed(h);
    RoundAt(g, directed, n);
    RoundAt(h, directed, n);
    forall m | m in order
      ensures ShareTo(h, directed, g.tokens, m, n) == ShareTo(g, directed, g.tokens, m, n)
    {
      ShareToIgnoresNodeOrder(g, order, directed, g.tokens, m, n);
    }
    InflowCongruent(h, g, directed, g.tokens, order, n);
    InflowPermutation(g, directed, g.tokens, order, g.nodes, n);
    if n in g.nodes {
      ShareToIgnoresNodeOrder(g, order, directed, g.tokens, n, n);
    }
  }

  /** Weight blindness: edge weights play no part in a round. */
  lemma {:induction false} ScheduleIgnoresWeights(g: Graph, w: map<Edge, real>, directed: bool, ns: seq<Node>, tok: map<Node, real>, ts: seq<Transfer>)
    requires directed ==> g.directed
    requires forall n :: n in ns ==> n in tok
    ensures Schedule(g.(weight := w), directed, ns, tok, ts) == Schedule(g, directed, ns, tok, ts)
    decreases |ns|
  {
    if ns != [] {
      var n := ns[0];
      assert NeighbourList(g.(weight := w), n, directed) == NeighbourList(g, n, directed) by {
        LinkedIgnoresWeights(g, w, n, g.nodes, g.directed);
      }
      ScheduleIgnoresWeights(g, w, directed, ns[1..], tok, ts);
      if tok[n] != 0.0 && NeighbourList(g, n, directed) != [] {
        ScheduleIgnoresWeights(g, w, directed, ns[1..], tok[n := 0.0],
          ts + Shares(n, Outgoing(g, n, directed), tok[n] / (|Outgoing(g, n, directed)| as real)));
      }
    }
  }

  lemma {:induction false} LinkedIgnoresWeights(g: Graph, w: map<Edge, real>, n: Node, ns: seq<Node>, successorsOnly: bool)
    ensures LinkedIn(g.(weight := w), n, ns, successorsOnly) == LinkedIn(g, n, ns, successorsOnly)
  {
    if ns != [] {
      LinkedIgnoresWeights(g, w, n, ns[1..], successorsOnly);
    }
  }

  /** Neither the `weighted` flag nor the edge weights change a round's
      outcome; only the weights carried along differ. */
  lemma RoundIgnoresWeights(g: Graph, w: map<Edge, real>, weighted: bool, weighted': bool, directed: bool)
    ensures TokenExchangeRound(g, weighted, directed) == TokenExchangeRound(g, weighted', directed)
    ensures TokenExchangeRound(g.(weight := w), weighted, directed).Ok? == TokenExchangeRound(g, weighted, directed).Ok?
    ensures TokenExchangeRound(g, weighted, directed).Ok? ==>
      TokenExchangeRound(g.(weight := w), weighted, directed).value
        == TokenExchangeRound(g, weighted, directed).value.(weight := w)
  {
    if TokenExchangeRound(g, weighted, directed).Ok? && g.nodes != [] {
      ScheduleIgnoresWeights(g, w, directed, g.nodes, g.tokens, []);
    }
  }
}
