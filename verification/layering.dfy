/** `calculateLayers(nodes, edges)` of the browser graph views: a
    breadth-first search from `__start__` over the descriptor's edges that
    groups the nodes it reaches by their distance from the start. The
    `nodes` argument is never read, and edges are followed whether they are
    conditional or not.

    The result is characterised by `Layered`; `LayerIsDistance` then shows
    that a node's layer is the length of a shortest path to it, and
    `UnreachableNotListed` that nodes the start cannot reach are left out. */
module Layering {
  import opened EventGraph

  /** A queue entry: `{ node, layer }`. */
  datatype Item = Item(node: string, layer: nat)

  /** `v` sits in `layers`, in a layer no further than `bound`. */
  ghost predicate ListedBy(layers: seq<seq<string>>, v: string, bound: int) {
    exists k, i :: 0 <= k < |layers| && k <= bound && 0 <= i < |layers[k]| && layers[k][i] == v
  }

  /** `v` sits somewhere in `layers`. */
  ghost predicate Listed(layers: seq<seq<string>>, v: string) {
    exists k, i :: 0 <= k < |layers| && 0 <= i < |layers[k]| && layers[k][i] == v
  }

  /** Some edge goes from `u` to `v`. */
  ghost predicate Edge(edges: seq<EdgeDto>, u: string, v: string) {
    exists j :: 0 <= j < |edges| && edges[j].from == u && edges[j].to == v
  }

  /** Some edge enters `v` from a node of `prev`. */
  ghost predicate EnteredFrom(edges: seq<EdgeDto>, prev: seq<string>, v: string) {
    exists p :: 0 <= p < |prev| && Edge(edges, prev[p], v)
  }

  /** Every node of layer k is entered from layer k - 1. */
  ghost predicate LayerEntered(edges: seq<EdgeDto>, layers: seq<seq<string>>, k: int)
    requires 0 < k < |layers|
  {
    forall i :: 0 <= i < |layers[k]| ==> EnteredFrom(edges, layers[k - 1], layers[k][i])
  }

  /** No node is listed twice. */
  ghost predicate Distinct(layers: seq<seq<string>>) {
    forall k, i, k2, i2 :: 0 <= k < |layers| && 0 <= i < |layers[k]| && 0 <= k2 < |layers| && 0 <= i2 < |layers[k2]| ==>
      (layers[k][i] == layers[k2][i2] ==> k == k2 && i == i2)
  }

  /** What a breadth-first layering of the graph from `__start__` is:
      the start alone in layer 0, no empty layer, every node once, every
      node of layer k > 0 entered from layer k - 1, and every edge out of a
      listed node leading to a listed node at most one layer further. */
  ghost predicate Layered(edges: seq<EdgeDto>, layers: seq<seq<string>>) {
    && |layers| > 0 && layers[0] == [START]
    && (forall k :: 0 <= k < |layers| ==> |layers[k]| > 0)
    && Distinct(layers)
    && (forall k :: 0 < k < |layers| ==> LayerEntered(edges, layers, k))
    && (forall k, i, j :: 0 <= k < |layers| && 0 <= i < |layers[k]| && 0 <= j < |edges| ==>
          (edges[j].from == layers[k][i] ==> ListedBy(layers, edges[j].to, k + 1)))
  }

  // ---- the search ----

  /** Every node the search can ever visit. */
  function Candidates(edges: seq<EdgeDto>): set<string> {
    {START} + set j | 0 <= j < |edges| :: edges[j].to
  }

  /** `visited` and the keys of `nodeToLayer` agree; only the start has
      layer 0 and no layer is beyond `n`. */
  ghost predicate Tags(lay: map<string, nat>, visited: set<string>, n: nat) {
    && visited == lay.Keys
    && START in lay && lay[START] == 0
    && (forall v :: v in lay && lay[v] == 0 ==> v == START)
    && (forall v :: v in lay ==> lay[v] <= n)
  }

  /** The layers are non-empty, the first holds the start alone, they
      carry their index in `nodeToLayer`, and repeat no node within a
      layer. */
  ghost predicate LayersTagged(layers: seq<seq<string>>, lay: map<string, nat>) {
    && (|layers| > 0 ==> layers[0] == [START])
    && (forall k :: 0 <= k < |layers| ==> |layers[k]| > 0)
    && (forall k, i :: 0 <= k < |layers| && 0 <= i < |layers[k]| ==> layers[k][i] in lay && lay[layers[k][i]] == k)
    && (forall k, i, j :: 0 <= k < |layers| && 0 <= i < j < |layers[k]| ==> layers[k][i] != layers[k][j])
  }

  /** The queue's entries carry their layer in `nodeToLayer`, span the
      last layer and the next (`n` layers so far), are sorted and distinct. */
  ghost predicate QueueTagged(queue: seq<Item>, lay: map<string, nat>, n: nat) {
    && (forall i :: 0 <= i < |queue| ==> queue[i].node in lay && lay[queue[i].node] == queue[i].layer)
    && (forall i :: 0 <= i < |queue| ==> n <= queue[i].layer + 1 && queue[i].layer <= n)
    && (forall i, j :: 0 <= i < j < |queue| ==> queue[i].layer <= queue[j].layer)
    && (forall i, j :: 0 <= i < j < |queue| ==> queue[i].node != queue[j].node)
  }

  /** No queued node is listed. */
  ghost predicate Apart(layers: seq<seq<string>>, queue: seq<Item>) {
    forall i, k, j :: 0 <= i < |queue| && 0 <= k < |layers| && 0 <= j < |layers[k]| ==> layers[k][j] != queue[i].node
  }

  ghost predicate Queued(queue: seq<Item>, v: string) {
    exists i :: 0 <= i < |queue| && queue[i].node == v
  }

  /** Every visited node is listed or queued. */
  ghost predicate Covered(layers: seq<seq<string>>, queue: seq<Item>, lay: map<string, nat>) {
    forall v :: v in lay ==> Listed(layers, v) || Queued(queue, v)
  }

  /** Every visited node other than the start was entered from a node one
      layer nearer. */
  ghost predicate Sound(edges: seq<EdgeDto>, lay: map<string, nat>) {
    forall v :: v in lay && lay[v] > 0 ==> exists u :: u in lay && lay[u] + 1 == lay[v] && Edge(edges, u, v)
  }

  /** Every edge out of a listed node leads to a visited node at most one
      layer further. */
  ghost predicate Closed(edges: seq<EdgeDto>, layers: seq<seq<string>>, lay: map<string, nat>) {
    forall k, i, j :: 0 <= k < |layers| && 0 <= i < |layers[k]| && 0 <= j < |edges| ==>
      (edges[j].from == layers[k][i] ==> edges[j].to in lay && lay[edges[j].to] <= k + 1)
  }

  ghost predicate Inv(edges: seq<EdgeDto>, layers: seq<seq<string>>, queue: seq<Item>, lay: map<string, nat>, visited: set<string>) {
    && Tags(lay, visited, |layers|)
    && LayersTagged(layers, lay)
    && QueueTagged(queue, lay, |layers|)
    && Apart(layers, queue)
    && Covered(layers, queue, lay)
    && Sound(edges, lay)
    && Closed(edges, layers, lay)
    && visited <= Candidates(edges)
  }

  /** What following the first `n` edges for `u` (layer `L`) did to the
      queue and the layer map: `lay` grew by the new targets, each with
      layer `L + 1`, queued once in order after `rest`; every edge out of
      `u` among them leads to a visited node. */
  ghost predicate ExpandedUpTo(edges: seq<EdgeDto>, u: string, L: nat, rest: seq<Item>, lay: map<string, nat>,
                               queue: seq<Item>, lay2: map<string, nat>, n: nat) {
    QueueExtended(L, rest, lay, queue, lay2) && MapExtended(edges, u, L, rest, lay, queue, lay2, n)
  }

  /** The queue is `rest` followed by distinct new nodes of layer `L + 1`. */
  ghost predicate QueueExtended(L: nat, rest: seq<Item>, lay: map<string, nat>, queue: seq<Item>, lay2: map<string, nat>) {
    && |rest| <= |queue| && queue[..|rest|] == rest
    && (forall i :: |rest| <= i < |queue| ==>
          queue[i].layer == L + 1 && queue[i].node !in lay && queue[i].node in lay2 && lay2[queue[i].node] == L + 1)
    && (forall i, j :: |rest| <= i < j < |queue| ==> queue[i].node != queue[j].node)
  }

  /** The layer map grew by targets of `u`, each queued, and covers the
      targets of the first `n` edges out of `u`. */
  ghost predicate MapExtended(edges: seq<EdgeDto>, u: string, L: nat, rest: seq<Item>, lay: map<string, nat>,
                              queue: seq<Item>, lay2: map<string, nat>, n: nat) {
    && |rest| <= |queue|
    && (forall v :: v in lay ==> v in lay2 && lay2[v] == lay[v])
    && (forall v :: v in lay2 && v !in lay ==> lay2[v] == L + 1 && Edge(edges, u, v) && Queued(queue[|rest|..], v))
    && (forall j :: 0 <= j < n && j < |edges| && edges[j].from == u ==>
          edges[j].to in lay2 && (edges[j].to in lay || lay2[edges[j].to] == L + 1))
  }

  ghost predicate Expanded(edges: seq<EdgeDto>, u: string, L: nat, rest: seq<Item>, lay: map<string, nat>,
                           queue: seq<Item>, lay2: map<string, nat>) {
    ExpandedUpTo(edges, u, L, rest, lay, queue, lay2, |edges|)
  }

  /** Visiting the unvisited target of the `n`-th edge. */
  lemma VisitStep(edges: seq<EdgeDto>, u: string, L: nat, rest: seq<Item>, lay0: map<string, nat>,
                  queue: seq<Item>, lay: map<string, nat>, n: nat)
    requires n < |edges| && edges[n].from == u && edges[n].to !in lay
    requires ExpandedUpTo(edges, u, L, rest, lay0, queue, lay, n)
    ensures ExpandedUpTo(edges, u, L, rest, lay0, queue + [Item(edges[n].to, L + 1)], lay[edges[n].to := L + 1], n + 1)
  {
    VisitQueue(L, rest, lay0, queue, lay, edges[n].to);
    VisitMap(edges, u, L, rest, lay0, queue, lay, n);
  }

  lemma VisitQueue(L: nat, rest: seq<Item>, lay0: map<string, nat>, queue: seq<Item>, lay: map<string, nat>, t: string)
    requires t !in lay && (forall v :: v in lay0 ==> v in lay)
    requires QueueExtended(L, rest, lay0, queue, lay)
    ensures QueueExtended(L, rest, lay0, queue + [Item(t, L + 1)], lay[t := L + 1])
  {
    var q2, lay2 := queue + [Item(t, L + 1)], lay[t := L + 1];
    assert q2[..|rest|] == queue[..|rest|];
    forall i | |rest| <= i < |q2|
      ensures q2[i].layer == L + 1 && q2[i].node !in lay0 && q2[i].node in lay2 && lay2[q2[i].node] == L + 1
    {
      if i < |queue| {
        assert q2[i] == queue[i];
      }
    }
    forall i, j | |rest| <= i < j < |q2|
      ensures q2[i].node != q2[j].node
    {
      assert q2[i] == queue[i];
      if j < |queue| {
        assert q2[j] == queue[j];
      }
    }
  }

  lemma VisitMap(edges: seq<EdgeDto>, u: string, L: nat, rest: seq<Item>, lay0: map<string, nat>,
                 queue: seq<Item>, lay: map<string, nat>, n: nat)
    requires n < |edges| && edges[n].from == u && edges[n].to !in lay
    requires MapExtended(edges, u, L, rest, lay0, queue, lay, n)
    ensures MapExtended(edges, u, L, rest, lay0, queue + [Item(edges[n].to, L + 1)], lay[edges[n].to := L + 1], n + 1)
  {
    var t := edges[n].to;
    var lay2 := lay[t := L + 1];
    assert Edge(edges, u, t);
    QueuedAfterVisit(edges, u, L, rest, lay0, queue, lay, t);
    forall v | v in lay2 && v !in lay0
      ensures lay2[v] == L + 1 && Edge(edges, u, v)
    {
      if v != t {
        assert v in lay;
      }
    }
    forall j | 0 <= j < n + 1 && j < |edges| && edges[j].from == u
      ensures edges[j].to in lay2 && (edges[j].to in lay0 || lay2[edges[j].to] == L + 1)
    {
      if j < n && edges[j].to != t {
        assert edges[j].to in lay;
      }
    }
  }

  /** After visiting `t`, every node new since `lay0` is queued after
      `rest`. */
  lemma QueuedAfterVisit(edges: seq<EdgeDto>, u: string, L: nat, rest: seq<Item>, lay0: map<string, nat>,
                         queue: seq<Item>, lay: map<string, nat>, t: string)
    requires |rest| <= |queue|
    requires forall v :: v in lay && v !in lay0 ==> Queued(queue[|rest|..], v)
    ensures forall v :: v in lay[t := L + 1] && v !in lay0 ==> Queued((queue + [Item(t, L + 1)])[|rest|..], v)
  {
    var q2 := queue + [Item(t, L + 1)];
    assert q2[|rest|..] == queue[|rest|..] + [Item(t, L + 1)];
    forall v | v in lay[t := L + 1] && v !in lay0 ensures Queued(q2[|rest|..], v) {
      if v != t {
        var i :| 0 <= i < |queue[|rest|..]| && queue[|rest|..][i].node == v;
        assert q2[|rest|..][i].node == v;
      } else {
        assert q2[|rest|..][|q2[|rest|..]| - 1].node == v;
      }
    }
  }

  /** Passing over the `n`-th edge: it leaves `u`'s layer untouched, or its
      target is already visited. */
  lemma SkipStep(edges: seq<EdgeDto>, u: string, L: nat, rest: seq<Item>, lay0: map<string, nat>,
                 queue: seq<Item>, lay: map<string, nat>, n: nat)
    requires n < |edges| && !(edges[n].from == u && edges[n].to !in lay)
    requires ExpandedUpTo(edges, u, L, rest, lay0, queue, lay, n)
    ensures ExpandedUpTo(edges, u, L, rest, lay0, queue, lay, n + 1)
  {
  }

  /** Every edge target is a candidate. */
  lemma TargetIsCandidate(edges: seq<EdgeDto>, n: nat)
    requires n < |edges|
    ensures edges[n].to in Candidates(edges)
  {
  }

  /** The `edges.forEach` of one dequeued node `u` of layer `L`: every
      unvisited target is visited, given layer `L + 1` and queued, in edge
      order. */
  method Expand(edges: seq<EdgeDto>, u: string, L: nat, rest: seq<Item>, lay0: map<string, nat>, visited0: set<string>)
    returns (queue: seq<Item>, lay: map<string, nat>, visited: set<string>)
    requires visited0 == lay0.Keys
    ensures visited == lay.Keys
    ensures Expanded(edges, u, L, rest, lay0, queue, lay)
    ensures visited0 <= visited <= visited0 + Candidates(edges)
    ensures visited == visited0 ==> queue == rest
  {
    queue, lay, visited := rest, lay0, visited0;
    var n := 0;
    while n < |edges|
      invariant 0 <= n <= |edges|
      invariant visited == lay.Keys
      invariant ExpandedUpTo(edges, u, L, rest, lay0, queue, lay, n)
      invariant visited0 <= visited <= visited0 + Candidates(edges)
      invariant visited == visited0 ==> queue == rest
    {
      var e := edges[n];
      if e.from == u && e.to !in visited {
        VisitStep(edges, u, L, rest, lay0, queue, lay, n);
        TargetIsCandidate(edges, n);
        visited := visited + {e.to};
        lay := lay[e.to := L + 1];
        queue := queue + [Item(e.to, L + 1)];
      } else {
        SkipStep(edges, u, L, rest, lay0, queue, lay, n);
      }
      n := n + 1;
    }
  }

  /** The dequeued node joins its layer, opening the layer when it is the
      first of it; the layer is never further than one past the last. */
  function PushLayer(layers: seq<seq<string>>, L: nat, u: string): (r: seq<seq<string>>)
    requires L <= |layers|
    ensures |r| == (if L < |layers| then |layers| else |layers| + 1)
    ensures forall k :: 0 <= k < |r| && k != L ==> r[k] == layers[k]
    ensures r[L] == (if L < |layers| then layers[L] else []) + [u]
  {
    if L < |layers| then layers[L := layers[L] + [u]] else layers + [[u]]
  }

  lemma PushListed(layers: seq<seq<string>>, L: nat, u: string, v: string)
    requires L <= |layers|
    ensures Listed(PushLayer(layers, L, u), v) <==> Listed(layers, v) || v == u
  {
    var r := PushLayer(layers, L, u);
    if Listed(layers, v) {
      var k, i :| 0 <= k < |layers| && 0 <= i < |layers[k]| && layers[k][i] == v;
      assert r[k][i] == v;
    }
    if v == u {
      assert r[L][|r[L]| - 1] == u;
    }
    if Listed(r, v) {
      var k, i :| 0 <= k < |r| && 0 <= i < |r[k]| && r[k][i] == v;
      if k != L {
        assert layers[k][i] == v;
      } else if i < |r[L]| - 1 {
        assert layers[L][i] == v;
      }
    }
  }

  /** The head of the queue belongs to the last layer or the next one. */
  lemma HeadLayer(layers: seq<seq<string>>, queue: seq<Item>, lay: map<string, nat>)
    requires QueueTagged(queue, lay, |layers|) && |queue| > 0
    ensures |layers| <= queue[0].layer + 1 && queue[0].layer <= |layers|
    ensures forall i :: 0 <= i < |queue[1..]| ==> queue[0].layer <= queue[1..][i].layer <= queue[0].layer + 1
  {
    forall i | 0 <= i < |queue[1..]| ensures queue[0].layer <= queue[1..][i].layer <= queue[0].layer + 1 {
      assert queue[1..][i] == queue[i + 1];
    }
  }

  lemma PushLayersTagged(layers: seq<seq<string>>, queue: seq<Item>, lay: map<string, nat>, visited: set<string>)
    requires Tags(lay, visited, |layers|) && LayersTagged(layers, lay) && QueueTagged(queue, lay, |layers|)
    requires Apart(layers, queue) && |queue| > 0
    requires queue[0].layer <= |layers|
    ensures LayersTagged(PushLayer(layers, queue[0].layer, queue[0].node), lay)
  {
    var L, u := queue[0].layer, queue[0].node;
    var r := PushLayer(layers, L, u);
    // only the start has layer 0, and the start is already listed once a
    // layer exists
    assert |layers| > 0 ==> layers[0][0] != u;
    assert lay[u] == L;
    forall k, i | 0 <= k < |r| && 0 <= i < |r[k]| ensures r[k][i] in lay && lay[r[k][i]] == k {
      if k == L && i == |r[L]| - 1 {
        assert r[k][i] == u;
      } else {
        assert r[k][i] == layers[k][i];
      }
    }
    forall k, i, j | 0 <= k < |r| && 0 <= i < j < |r[k]| ensures r[k][i] != r[k][j] {
      if k == L && j == |r[L]| - 1 {
        assert r[k][j] == u && r[k][i] == layers[k][i];
      } else {
        assert r[k][i] == layers[k][i] && r[k][j] == layers[k][j];
      }
    }
  }

  lemma PushApart(layers: seq<seq<string>>, queue: seq<Item>, lay: map<string, nat>)
    requires QueueTagged(queue, lay, |layers|) && Apart(layers, queue) && |queue| > 0
    requires queue[0].layer <= |layers|
    ensures Apart(PushLayer(layers, queue[0].layer, queue[0].node), queue[1..])
  {
    var L, u, rest := queue[0].layer, queue[0].node, queue[1..];
    var r := PushLayer(layers, L, u);
    forall i, k, j | 0 <= i < |rest| && 0 <= k < |r| && 0 <= j < |r[k]| ensures r[k][j] != rest[i].node {
      assert rest[i] == queue[i + 1];
      if k == L && j == |r[L]| - 1 {
        assert r[k][j] == u;
      } else {
        assert r[k][j] == layers[k][j];
      }
    }
  }

  lemma PushCovered(layers: seq<seq<string>>, queue: seq<Item>, lay: map<string, nat>)
    requires Covered(layers, queue, lay) && |queue| > 0 && queue[0].layer <= |layers|
    ensures Covered(PushLayer(layers, queue[0].layer, queue[0].node), queue[1..], lay)
  {
    var L, u, rest := queue[0].layer, queue[0].node, queue[1..];
    forall v | v in lay ensures Listed(PushLayer(layers, L, u), v) || Queued(rest, v) {
      PushListed(layers, L, u, v);
      if !Listed(layers, v) && v != u {
        var i :| 0 <= i < |queue| && queue[i].node == v;
        assert rest[i - 1].node == v;
      }
    }
  }

  lemma StepTags(lay: map<string, nat>, visited: set<string>, n: nat, L: nat,
                 u: string, edges: seq<EdgeDto>, rest: seq<Item>, queue2: seq<Item>, lay2: map<string, nat>, visited2: set<string>)
    requires Tags(lay, visited, n) && n <= L + 1
    requires visited2 == lay2.Keys && Expanded(edges, u, L, rest, lay, queue2, lay2)
    ensures Tags(lay2, visited2, L + 1)
  {
  }

  lemma StepQueue(rest: seq<Item>, lay: map<string, nat>, L: nat,
                  edges: seq<EdgeDto>, u: string, queue2: seq<Item>, lay2: map<string, nat>)
    requires forall i :: 0 <= i < |rest| ==> L <= rest[i].layer <= L + 1
    requires QueueTagged(rest, lay, L + 1)
    requires Expanded(edges, u, L, rest, lay, queue2, lay2)
    ensures QueueTagged(queue2, lay2, L + 1)
  {
    forall i | 0 <= i < |queue2| ensures queue2[i].node in lay2 && lay2[queue2[i].node] == queue2[i].layer {
      if i < |rest| {
        assert queue2[i] == rest[i];
      }
    }
    forall i | 0 <= i < |queue2| ensures L + 1 <= queue2[i].layer + 1 && queue2[i].layer <= L + 1 {
      if i < |rest| {
        assert queue2[i] == rest[i];
      }
    }
    forall i, j | 0 <= i < j < |queue2| ensures queue2[i].layer <= queue2[j].layer {
      if j < |rest| {
        assert queue2[i] == rest[i] && queue2[j] == rest[j];
      } else if i < |rest| {
        assert queue2[i] == rest[i];
      }
    }
    forall i, j | 0 <= i < j < |queue2| ensures queue2[i].node != queue2[j].node {
      if j < |rest| {
        assert queue2[i] == rest[i] && queue2[j] == rest[j];
      } else if i < |rest| {
        assert queue2[i] == rest[i] && rest[i].node in lay;
      }
    }
  }

  lemma StepApart(r: seq<seq<string>>, rest: seq<Item>, lay: map<string, nat>, L: nat,
                  edges: seq<EdgeDto>, u: string, queue2: seq<Item>, lay2: map<string, nat>)
    requires Apart(r, rest) && LayersTagged(r, lay)
    requires Expanded(edges, u, L, rest, lay, queue2, lay2)
    ensures Apart(r, queue2)
  {
    forall i, k, j | 0 <= i < |queue2| && 0 <= k < |r| && 0 <= j < |r[k]| ensures r[k][j] != queue2[i].node {
      if i < |rest| {
        assert queue2[i] == rest[i];
      } else {
        assert r[k][j] in lay;
      }
    }
  }

  lemma StepCovered(r: seq<seq<string>>, rest: seq<Item>, lay: map<string, nat>, L: nat,
                    edges: seq<EdgeDto>, u: string, queue2: seq<Item>, lay2: map<string, nat>)
    requires Covered(r, rest, lay)
    requires Expanded(edges, u, L, rest, lay, queue2, lay2)
    ensures Covered(r, queue2, lay2)
  {
    forall v | v in lay2 ensures Listed(r, v) || Queued(queue2, v) {
      if v in lay {
        if !Listed(r, v) {
          var i :| 0 <= i < |rest| && rest[i].node == v;
          assert queue2[i] == rest[i];
        }
      } else {
        var i :| 0 <= i < |queue2[|rest|..]| && queue2[|rest|..][i].node == v;
        assert queue2[|rest| + i].node == v;
      }
    }
  }

  lemma StepSound(edges: seq<EdgeDto>, lay: map<string, nat>, u: string, L: nat, rest: seq<Item>,
                  queue2: seq<Item>, lay2: map<string, nat>)
    requires Sound(edges, lay) && u in lay && lay[u] == L
    requires Expanded(edges, u, L, rest, lay, queue2, lay2)
    ensures Sound(edges, lay2)
  {
    forall v | v in lay2 && lay2[v] > 0 ensures exists w :: w in lay2 && lay2[w] + 1 == lay2[v] && Edge(edges, w, v) {
      if v in lay {
        var w :| w in lay && lay[w] + 1 == lay[v] && Edge(edges, w, v);
        assert w in lay2;
      } else {
        assert u in lay2 && lay2[u] == L;
      }
    }
  }

  lemma StepClosed(edges: seq<EdgeDto>, layers: seq<seq<string>>, lay: map<string, nat>, u: string, L: nat,
                   rest: seq<Item>, queue2: seq<Item>, lay2: map<string, nat>)
    requires Closed(edges, layers, lay) && L <= |layers| && u in lay && lay[u] == L
    requires forall v :: v in lay ==> lay[v] <= L + 1
    requires Expanded(edges, u, L, rest, lay, queue2, lay2)
    ensures Closed(edges, PushLayer(layers, L, u), lay2)
  {
    var r := PushLayer(layers, L, u);
    forall k, i, j | 0 <= k < |r| && 0 <= i < |r[k]| && 0 <= j < |edges| && edges[j].from == r[k][i]
      ensures edges[j].to in lay2 && lay2[edges[j].to] <= k + 1
    {
      if k == L && i == |r[L]| - 1 {
        assert r[k][i] == u;
      } else {
        assert r[k][i] == layers[k][i];
      }
    }
  }

  /** What follows the head of the queue is tagged for the layer after
      the head's. */
  lemma RestTagged(layers: seq<seq<string>>, queue: seq<Item>, lay: map<string, nat>)
    requires QueueTagged(queue, lay, |layers|) && |queue| > 0
    requires |layers| <= queue[0].layer + 1
    ensures QueueTagged(queue[1..], lay, queue[0].layer + 1)
  {
    var rest := queue[1..];
    HeadLayer(layers, queue, lay);
    forall i | 0 <= i < |rest| ensures rest[i].node in lay && lay[rest[i].node] == rest[i].layer {
      assert rest[i] == queue[i + 1];
    }
    forall i, j | 0 <= i < j < |rest| ensures rest[i].layer <= rest[j].layer && rest[i].node != rest[j].node {
      assert rest[i] == queue[i + 1] && rest[j] == queue[j + 1];
    }
  }

  /** One iteration keeps the invariant. */
  lemma StepKeepsInv(edges: seq<EdgeDto>, layers: seq<seq<string>>, queue: seq<Item>, lay: map<string, nat>, visited: set<string>,
                     queue2: seq<Item>, lay2: map<string, nat>, visited2: set<string>)
    requires Inv(edges, layers, queue, lay, visited) && |queue| > 0
    requires visited2 == lay2.Keys && Expanded(edges, queue[0].node, queue[0].layer, queue[1..], lay, queue2, lay2)
    requires visited <= visited2 <= visited + Candidates(edges)
    ensures queue[0].layer <= |layers|
    ensures Inv(edges, PushLayer(layers, queue[0].layer, queue[0].node), queue2, lay2, visited2)
  {
    var L, u, rest := queue[0].layer, queue[0].node, queue[1..];
    HeadLayer(layers, queue, lay);
    var r := PushLayer(layers, L, u);
    assert |r| == L + 1;
    PushLayersTagged(layers, queue, lay, visited);
    PushApart(layers, queue, lay);
    PushCovered(layers, queue, lay);
    StepTags(lay, visited, |layers|, L, u, edges, rest, queue2, lay2, visited2);
    RestTagged(layers, queue, lay);
    StepQueue(rest, lay, L, edges, u, queue2, lay2);
    StepApart(r, rest, lay, L, edges, u, queue2, lay2);
    StepCovered(r, rest, lay, L, edges, u, queue2, lay2);
    StepSound(edges, lay, u, L, rest, queue2, lay2);
    StepClosed(edges, layers, lay, u, L, rest, queue2, lay2);
  }

  lemma DoneFirstLayer(layers: seq<seq<string>>, lay: map<string, nat>, visited: set<string>)
    requires Tags(lay, visited, |layers|) && LayersTagged(layers, lay) && Covered(layers, [], lay)
    ensures |layers| > 0 && layers[0] == [START]
  {
    assert Listed(layers, START) || Queued([], START);
  }

  lemma DoneDistinct(layers: seq<seq<string>>, lay: map<string, nat>)
    requires LayersTagged(layers, lay)
    ensures Distinct(layers)
  {
    forall k, i, k2, i2 | 0 <= k < |layers| && 0 <= i < |layers[k]| && 0 <= k2 < |layers| && 0 <= i2 < |layers[k2]|
      ensures layers[k][i] == layers[k2][i2] ==> k == k2 && i == i2
    {
      if layers[k][i] == layers[k2][i2] {
        assert lay[layers[k][i]] == k && lay[layers[k2][i2]] == k2;
      }
    }
  }

  lemma DoneEntered(edges: seq<EdgeDto>, layers: seq<seq<string>>, lay: map<string, nat>)
    requires LayersTagged(layers, lay) && Covered(layers, [], lay) && Sound(edges, lay)
    ensures forall k :: 0 < k < |layers| ==> LayerEntered(edges, layers, k)
  {
    forall k | 0 < k < |layers| ensures LayerEntered(edges, layers, k) {
      forall i | 0 <= i < |layers[k]| ensures EnteredFrom(edges, layers[k - 1], layers[k][i]) {
        DoneEnteredAt(edges, layers, lay, k, i);
      }
    }
  }

  lemma DoneEnteredAt(edges: seq<EdgeDto>, layers: seq<seq<string>>, lay: map<string, nat>, k: nat, i: nat)
    requires LayersTagged(layers, lay) && Covered(layers, [], lay) && Sound(edges, lay)
    requires 0 < k < |layers| && i < |layers[k]|
    ensures EnteredFrom(edges, layers[k - 1], layers[k][i])
  {
    var v := layers[k][i];
    assert v in lay && lay[v] == k;
    var u :| u in lay && lay[u] + 1 == lay[v] && Edge(edges, u, v);
    assert Listed(layers, u) || Queued([], u);
    var ku, p :| 0 <= ku < |layers| && 0 <= p < |layers[ku]| && layers[ku][p] == u;
    assert lay[layers[ku][p]] == ku;
    assert Edge(edges, layers[k - 1][p], v);
  }

  lemma DoneClosed(edges: seq<EdgeDto>, layers: seq<seq<string>>, lay: map<string, nat>)
    requires LayersTagged(layers, lay) && Covered(layers, [], lay) && Closed(edges, layers, lay)
    ensures forall k, i, j :: 0 <= k < |layers| && 0 <= i < |layers[k]| && 0 <= j < |edges| ==>
      (edges[j].from == layers[k][i] ==> ListedBy(layers, edges[j].to, k + 1))
  {
    forall k, i, j | 0 <= k < |layers| && 0 <= i < |layers[k]| && 0 <= j < |edges| && edges[j].from == layers[k][i]
      ensures ListedBy(layers, edges[j].to, k + 1)
    {
      var v := edges[j].to;
      assert v in lay && lay[v] <= k + 1;
      assert Listed(layers, v) || Queued([], v);
      var k2, i2 :| 0 <= k2 < |layers| && 0 <= i2 < |layers[k2]| && layers[k2][i2] == v;
      assert lay[layers[k2][i2]] == k2;
    }
  }

  /** The invariant with an empty queue is the layering. */
  lemma DoneIsLayered(edges: seq<EdgeDto>, layers: seq<seq<string>>, lay: map<string, nat>, visited: set<string>)
    requires Inv(edges, layers, [], lay, visited)
    ensures Layered(edges, layers)
  {
    DoneFirstLayer(layers, lay, visited);
    DoneDistinct(layers, lay);
    DoneEntered(edges, layers, lay);
    DoneClosed(edges, layers, lay);
  }

  lemma FewerUnvisited(c: set<string>, v: set<string>, v2: set<string>)
    requires v <= c && v <= v2 <= c && v2 != v
    ensures |c - v2| < |c - v|
  {
    var x :| x in v2 && x !in v;
    assert c - v == (c - v2) + (v2 - v);
    assert (c - v2) * (v2 - v) == {};
    assert x in v2 - v;
  }

  /** `calculateLayers(nodes, edges)`. */
  method CalculateLayers(nodes: seq<string>, edges: seq<EdgeDto>) returns (layers: seq<seq<string>>)
    ensures Layered(edges, layers)
  {
    layers := [];
    var visited: set<string> := {START};
    var nodeToLayer: map<string, nat> := map[START := 0];
    var queue := [Item(START, 0)];
    assert Covered(layers, queue, nodeToLayer) by {
      assert queue[0].node == START;
    }
    while |queue| > 0
      invariant Inv(edges, layers, queue, nodeToLayer, visited)
      decreases |Candidates(edges) - visited|, |queue|
    {
      var item := queue[0];
      var queue2, lay2, visited2 := Expand(edges, item.node, item.layer, queue[1..], nodeToLayer, visited);
      StepKeepsInv(edges, layers, queue, nodeToLayer, visited, queue2, lay2, visited2);
      if visited2 != visited {
        FewerUnvisited(Candidates(edges), visited, visited2);
      }
      layers, queue, nodeToLayer, visited := PushLayer(layers, item.layer, item.node), queue2, lay2, visited2;
    }
    DoneIsLayered(edges, layers, nodeToLayer, visited);
  }

  // ---- layers are distances ----

  /** `p` is a walk along the edges starting at `__start__`. */
  ghost predicate IsPath(edges: seq<EdgeDto>, p: seq<string>) {
    && |p| > 0 && p[0] == START
    && forall n :: 0 <= n < |p| - 1 ==> Edge(edges, p[n], p[n + 1])
  }

  /** Every node of layer k is reached by a walk of k edges. */
  lemma {:induction false} LayerHasPath(edges: seq<EdgeDto>, layers: seq<seq<string>>, k: nat, i: nat)
    requires Layered(edges, layers) && k < |layers| && i < |layers[k]|
    ensures exists p :: IsPath(edges, p) && |p| == k + 1 && p[k] == layers[k][i]
  {
    if k == 0 {
      assert IsPath(edges, [START]);
    } else {
      assert LayerEntered(edges, layers, k);
      assert EnteredFrom(edges, layers[k - 1], layers[k][i]);
      var q :| 0 <= q < |layers[k - 1]| && Edge(edges, layers[k - 1][q], layers[k][i]);
      LayerHasPath(edges, layers, k - 1, q);
      var p :| IsPath(edges, p) && |p| == k && p[k - 1] == layers[k - 1][q];
      var p2 := p + [layers[k][i]];
      assert forall n :: 0 <= n < |p2| - 1 ==> Edge(edges, p2[n], p2[n + 1]) by {
        forall n | 0 <= n < |p2| - 1 ensures Edge(edges, p2[n], p2[n + 1]) {
          if n < |p| - 1 {
            assert p2[n] == p[n] && p2[n + 1] == p[n + 1];
          }
        }
      }
      assert IsPath(edges, p2);
    }
  }

  /** The end of a walk of n edges is listed in a layer no further than n. */
  lemma {:induction false} PathBoundsLayer(edges: seq<EdgeDto>, layers: seq<seq<string>>, p: seq<string>)
    requires Layered(edges, layers) && IsPath(edges, p)
    ensures exists k, i :: 0 <= k < |layers| && k <= |p| - 1 && 0 <= i < |layers[k]| && layers[k][i] == p[|p| - 1]
    decreases |p|
  {
    if |p| == 1 {
      assert layers[0][0] == p[0];
    } else {
      var q := p[..|p| - 1];
      assert IsPath(edges, q) by {
        forall n | 0 <= n < |q| - 1 ensures Edge(edges, q[n], q[n + 1]) {
          assert q[n] == p[n] && q[n + 1] == p[n + 1];
        }
      }
      PathBoundsLayer(edges, layers, q);
      var k, i :| 0 <= k < |layers| && k <= |q| - 1 && 0 <= i < |layers[k]| && layers[k][i] == q[|q| - 1];
      assert Edge(edges, p[|p| - 2], p[|p| - 1]);
      var j :| 0 <= j < |edges| && edges[j].from == p[|p| - 2] && edges[j].to == p[|p| - 1];
      assert edges[j].from == layers[k][i];
    }
  }

  /** A node's layer is the length of a shortest walk to it from the start. */
  lemma LayerIsDistance(edges: seq<EdgeDto>, layers: seq<seq<string>>, k: nat, i: nat)
    requires Layered(edges, layers) && k < |layers| && i < |layers[k]|
    ensures exists p :: IsPath(edges, p) && |p| == k + 1 && p[k] == layers[k][i]
    ensures forall p :: IsPath(edges, p) && p[|p| - 1] == layers[k][i] ==> k <= |p| - 1
  {
    LayerHasPath(edges, layers, k, i);
    forall p | IsPath(edges, p) && p[|p| - 1] == layers[k][i] ensures k <= |p| - 1 {
      PathBoundsLayer(edges, layers, p);
    }
  }

  /** A node no walk from the start reaches is in no layer. */
  lemma UnreachableNotListed(edges: seq<EdgeDto>, layers: seq<seq<string>>, v: string)
    requires Layered(edges, layers)
    requires forall p :: IsPath(edges, p) ==> p[|p| - 1] != v
    ensures !Listed(layers, v)
  {
    if Listed(layers, v) {
      var k, i :| 0 <= k < |layers| && 0 <= i < |layers[k]| && layers[k][i] == v;
      LayerHasPath(edges, layers, k, i);
    }
  }
}
