// Node degrees for the drawing, counted in place.
module D3Graph {
  import opened VizGraph

  // How often node i is an end of an edge; a loop counts twice.
  function Degree(edges: seq<Edge>, i: nat): nat {
    if edges == [] then 0
    else
      var e := edges[|edges| - 1];
      Degree(edges[..|edges| - 1], i) + (if e.from == i then 1 else 0) + if e.to == i then 1 else 0
  }

  function SumOfDegrees(edges: seq<Edge>, n: nat): nat {
    if n == 0 then 0 else SumOfDegrees(edges, n - 1) + Degree(edges, n - 1)
  }

  lemma {:induction false} AddOne(edges: seq<Edge>, e: Edge, n: nat)
    ensures SumOfDegrees(edges + [e], n) ==
            SumOfDegrees(edges, n) + (if e.from < n then 1 else 0) + if e.to < n then 1 else 0
  {
    assert (edges + [e])[..|edges|] == edges;
    if n > 0 { AddOne(edges, e, n - 1); }
  }

  lemma {:induction false} NoEdges(n: nat)
    ensures SumOfDegrees([], n) == 0
  {
    if n > 0 { NoEdges(n - 1); }
  }

  // Every edge has two ends.
  lemma {:induction false} Handshake(edges: seq<Edge>, n: nat)
    requires forall e :: e in edges ==> e.from < n && e.to < n
    ensures SumOfDegrees(edges, n) == 2 * |edges|
  {
    if edges == [] {
      NoEdges(n);
    } else {
      var init, e := edges[..|edges| - 1], edges[|edges| - 1];
      assert edges == init + [e] && e in edges;
      assert forall x :: x in init ==> x in edges;
      Handshake(init, n);
      AddOne(init, e, n);
    }
  }

  // For the output of the walk the degrees add up.
  lemma WalkHandshake(g: Graph, v: Viz)
    requires Good(g, v)
    ensures SumOfDegrees(v.edges, |v.nodes|) == 2 * |v.edges|
  {
    EndpointsAreNodes(g, v);
    hide Good;
    Handshake(v.edges, |v.nodes|);
  }

  method CountDegrees(nodes: seq<Node>, edges: seq<Edge>) returns (num: array<nat>, maxNum: nat)
    requires forall e :: e in edges ==> e.from < |nodes| && e.to < |nodes|
    ensures fresh(num) && num.Length == |nodes|
    ensures forall i :: 0 <= i < |nodes| ==> num[i] == Degree(edges, i) <= maxNum
    ensures maxNum == 0 || exists i :: 0 <= i < |nodes| && num[i] == maxNum
  {
    num := new nat[|nodes|](_ => 0);
    for k := 0 to |edges|
      invariant forall i :: 0 <= i < |nodes| ==> num[i] == Degree(edges[..k], i)
    {
      var e := edges[k];
      assert edges[..k + 1][..k] == edges[..k];
      num[e.from] := num[e.from] + 1;
      num[e.to] := num[e.to] + 1;
    }
    assert edges[..|edges|] == edges;
    maxNum := 0;
    for i := 0 to |nodes|
      invariant forall j :: 0 <= j < i ==> num[j] <= maxNum
      invariant maxNum == 0 || exists j :: 0 <= j < i && num[j] == maxNum
    {
      if num[i] > maxNum { maxNum := num[i]; }
    }
  }
}
