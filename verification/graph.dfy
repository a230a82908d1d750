/**
 A value model of the small part of a networkx graph that the token simulation
 touches: an ordered node list (networkx keeps insertion order), a token
 balance per node, a set of edges, an optional weight per edge, and whether the
 graph is a `DiGraph` or an undirected `Graph`.
 */
module Graphs {

  type Node = int

  /** An edge as networkx reports it: (source, target) for a directed graph,
      and the one stored orientation of {u, v} for an undirected graph. */
  type Edge = (Node, Node)

  datatype Graph = Graph(
    directed: bool,
    nodes: seq<Node>,
    tokens: map<Node, real>,
    edges: set<Edge>,
    weight: map<Edge, real>)

  datatype Option<T> = None | Some(value: T)

  datatype Result<T, E> = Ok(value: T) | Err(error: E)

  function Flip(e: Edge): Edge {
    (e.1, e.0)
  }

  predicate Distinct(s: seq<Node>) {
    forall i, j :: 0 <= i < j < |s| ==> s[i] != s[j]
  }

  function Elements(s: seq<Node>): set<Node> {
    set x | x in s
  }

  /** The shape every networkx graph has: each node once, every edge between
      known nodes, at most one stored orientation per undirected edge, and
      edge attributes only on existing edges. */
  predicate WellFormed(g: Graph) {
    && Distinct(g.nodes)
    && (forall e :: e in g.edges ==> e.0 in g.nodes && e.1 in g.nodes)
    && (!g.directed ==> forall e :: e in g.edges && e.0 != e.1 ==> Flip(e) !in g.edges)
    && (forall e :: e in g.weight ==> e in g.edges)
  }

  /** Every node carries a `tokens` attribute. */
  predicate HasTokens(g: Graph) {
    forall n :: n in g.nodes ==> n in g.tokens
  }

  predicate HasSelfLoop(g: Graph, n: Node) {
    (n, n) in g.edges
  }

  /** `v` is listed for `n` by `successors` (when `successorsOnly`) or by the
      adjacency of an undirected graph (either stored orientation). */
  predicate Linked(g: Graph, n: Node, v: Node, successorsOnly: bool) {
    (n, v) in g.edges || (!successorsOnly && (v, n) in g.edges)
  }

  /** The members of `ns` linked to `n`, in the order of `ns`. */
  function LinkedIn(g: Graph, n: Node, ns: seq<Node>, successorsOnly: bool): (r: seq<Node>)
    ensures forall v :: v in r <==> v in ns && Linked(g, n, v, successorsOnly)
    ensures Distinct(ns) ==> Distinct(r)
    ensures |r| <= |ns|
  {
    if ns == [] then []
    else
      var rest := LinkedIn(g, n, ns[1..], successorsOnly);
      if Linked(g, n, ns[0], successorsOnly) then [ns[0]] + rest else rest
  }

  /** `G.successors(n)` of a `DiGraph`. */
  function Successors(g: Graph, n: Node): (r: seq<Node>)
    requires g.directed
    ensures forall v :: v in r <==> v in g.nodes && (n, v) in g.edges
  {
    LinkedIn(g, n, g.nodes, true)
  }

  /** `G.neighbors(n)`: for a `DiGraph` networkx answers with the successors,
      for a `Graph` with every node sharing an edge with `n`. */
  function Neighbors(g: Graph, n: Node): (r: seq<Node>)
    ensures g.directed ==> forall v :: v in r <==> v in g.nodes && (n, v) in g.edges
    ensures !g.directed ==>
      forall v :: v in r <==> v in g.nodes && ((n, v) in g.edges || (v, n) in g.edges)
  {
    LinkedIn(g, n, g.nodes, g.directed)
  }

  lemma {:induction false} DistinctSize(s: seq<Node>)
    requires Distinct(s)
    ensures |Elements(s)| == |s|
  {
    if s != [] {
      DistinctSize(s[1..]);
      assert Elements(s) == {s[0]} + Elements(s[1..]);
      assert s[0] !in Elements(s[1..]);
    }
  }

  /** Two duplicate-free sequences with the same members have the same length. */
  lemma SameMembersSameLength(a: seq<Node>, b: seq<Node>)
    requires Distinct(a) && Distinct(b)
    requires forall x :: x in a <==> x in b
    ensures |a| == |b|
  {
    DistinctSize(a);
    DistinctSize(b);
    assert Elements(a) == Elements(b);
  }

  /** Taking the element at `k` out of a duplicate-free sequence leaves a
      duplicate-free sequence of the other elements. */
  lemma RemoveAt(s: seq<Node>, k: nat)
    requires Distinct(s) && k < |s|
    ensures Distinct(s[..k] + s[k + 1..])
    ensures forall y :: y in s[..k] + s[k + 1..] <==> y in s && y != s[k]
  {
    var r := s[..k] + s[k + 1..];
    forall i, j | 0 <= i < j < |r|
      ensures r[i] != r[j]
    {
      var i' := if i < k then i else i + 1;
      var j' := if j < k then j else j + 1;
      assert r[i] == s[i'] && r[j] == s[j'];
    }
    forall y
      ensures y in r <==> y in s && y != s[k]
    {
      if y in r {
        var i :| 0 <= i < |r| && r[i] == y;
        var i' := if i < k then i else i + 1;
        assert s[i'] == y && i' != k;
      }
      if y in s && y != s[k] {
        var i :| 0 <= i < |s| && s[i] == y;
        if i < k {
          assert r[i] == y;
        } else {
          assert r[i - 1] == y;
        }
      }
    }
  }
}
