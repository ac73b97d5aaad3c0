/** Bounded traversal of the knowledge graph (src/zglab_rag/retrieval/graph.py).

    The edge table is one sequence in `edge_id` order; a node's rows are the edges that
    touch it, in that order.  An empty document, section or chunk id stands for NULL. */
module GraphTraversal {
  import opened Numbers
  import opened Text
  import Seqs

  type NodeId = string

  datatype Edge = Edge(source: NodeId, target: NodeId, document: string, section: string, chunk: string)

  datatype Limits = Limits(maxHops: nat, maxNodes: nat, maxEdges: nat, maxDocuments: nat)

  /** What the configuration's own validation demands. */
  predicate ValidLimits(limits: Limits) {
    0 < limits.maxHops && 0 < limits.maxNodes && 0 < limits.maxEdges && 0 < limits.maxDocuments
  }

  // ----- the graph -----

  predicate Touches(e: Edge, n: NodeId) {
    e.source == n || e.target == n
  }

  function Other(e: Edge, n: NodeId): NodeId {
    if e.source == n then e.target else e.source
  }

  function Rows(table: seq<Edge>, n: NodeId): (rows: seq<Edge>)
    ensures forall e :: e in rows <==> e in table && Touches(e, n)
  {
    if table == [] then []
    else (if Touches(table[0], n) then [table[0]] else []) + Rows(table[1..], n)
  }

  /** Some edge joins the two nodes, whichever of them is its source. */
  ghost predicate Adjacent(table: seq<Edge>, a: NodeId, b: NodeId) {
    exists e :: e in table && ((e.source == a && e.target == b) || (e.source == b && e.target == a))
  }

  ghost function Neighbors(table: seq<Edge>, S: set<NodeId>): set<NodeId> {
    (set e | e in table && e.source in S :: e.target) + (set e | e in table && e.target in S :: e.source)
  }

  /** The far end of a row: what an expansion reaches is what the edges join, in both directions. */
  lemma FarEndIsAdjacent(table: seq<Edge>, e: Edge, a: NodeId)
    requires e in table && Touches(e, a)
    ensures Adjacent(table, a, Other(e, a))
  {
  }

  lemma AdjacentIsFarEnd(table: seq<Edge>, a: NodeId, b: NodeId) returns (e: Edge)
    requires Adjacent(table, a, b)
    ensures e in table && Touches(e, a) && Other(e, a) == b
  {
    e :| e in table && ((e.source == a && e.target == b) || (e.source == b && e.target == a));
  }

  lemma NeighborIsAdjacent(table: seq<Edge>, S: set<NodeId>, y: NodeId)
    ensures y in Neighbors(table, S) <==> exists x :: x in S && Adjacent(table, x, y)
  {
    if y in Neighbors(table, S) {
      var e :| e in table && ((e.source in S && e.target == y) || (e.target in S && e.source == y));
      assert Adjacent(table, if e.source in S && e.target == y then e.source else e.target, y);
    }
  }

  /** All nodes at most `k` undirected edges away from `S`. */
  ghost function Ball(table: seq<Edge>, S: set<NodeId>, k: nat): set<NodeId> {
    if k == 0 then S else Ball(table, S, k - 1) + Neighbors(table, Ball(table, S, k - 1))
  }

  ghost predicate IsWalk(table: seq<Edge>, w: seq<NodeId>) {
    w != [] && forall i :: 0 <= i < |w| - 1 ==> Adjacent(table, w[i], w[i + 1])
  }

  ghost predicate WalkBetween(table: seq<Edge>, S: set<NodeId>, w: seq<NodeId>, x: NodeId, k: nat) {
    IsWalk(table, w) && w[0] in S && w[|w| - 1] == x && |w| <= k + 1
  }

  /** The ball is exactly what walks of at most `k` undirected edges reach. */
  lemma {:induction false} BallIsWalks(table: seq<Edge>, S: set<NodeId>, k: nat, x: NodeId)
    ensures x in Ball(table, S, k) <==> exists w :: WalkBetween(table, S, w, x, k)
  {
    if x in Ball(table, S, k) {
      var w := BallHasWalk(table, S, k, x);
    }
    forall w | WalkBetween(table, S, w, x, k) ensures x in Ball(table, S, k) {
      WalkStaysInBall(table, S, w, k);
    }
  }

  /** The nodes that walks of at most `k` undirected edges reach. */
  ghost predicate AreWalkedTo(nodes: set<NodeId>, table: seq<Edge>, S: set<NodeId>, k: nat) {
    forall x :: x in nodes <==> exists w :: WalkBetween(table, S, w, x, k)
  }

  lemma BallIsAllWalks(table: seq<Edge>, S: set<NodeId>, k: nat)
    ensures AreWalkedTo(Ball(table, S, k), table, S, k)
  {
    forall x ensures x in Ball(table, S, k) <==> exists w :: WalkBetween(table, S, w, x, k) {
      BallIsWalks(table, S, k, x);
    }
  }

  lemma {:induction false} BallHasWalk(table: seq<Edge>, S: set<NodeId>, k: nat, x: NodeId) returns (w: seq<NodeId>)
    requires x in Ball(table, S, k)
    ensures WalkBetween(table, S, w, x, k)
  {
    if x in S {
      w := [x];
    } else if x in Ball(table, S, k - 1) {
      w := BallHasWalk(table, S, k - 1, x);
    } else {
      var y := FoundFrom(table, Ball(table, S, k - 1), x);
      var v := BallHasWalk(table, S, k - 1, y);
      w := v + [x];
      WalkAppend(table, v, x);
    }
  }

  lemma FoundFrom(table: seq<Edge>, ball: set<NodeId>, x: NodeId) returns (y: NodeId)
    requires x in Neighbors(table, ball)
    ensures y in ball && Adjacent(table, y, x)
  {
    NeighborIsAdjacent(table, ball, x);
    y :| y in ball && Adjacent(table, y, x);
  }

  lemma WalkAppend(table: seq<Edge>, v: seq<NodeId>, x: NodeId)
    requires IsWalk(table, v) && Adjacent(table, v[|v| - 1], x)
    ensures IsWalk(table, v + [x])
  {
    var w := v + [x];
    forall i | 0 <= i < |w| - 1 ensures Adjacent(table, w[i], w[i + 1]) {
      if i < |v| - 1 {
        assert Adjacent(table, v[i], v[i + 1]);
      }
    }
  }

  lemma {:induction false} WalkStaysInBall(table: seq<Edge>, S: set<NodeId>, w: seq<NodeId>, k: nat)
    requires IsWalk(table, w) && w[0] in S && |w| <= k + 1
    ensures w[|w| - 1] in Ball(table, S, k)
    decreases |w|
  {
    if |w| == 1 {
      BallMonotone(table, S, 0, k);
    } else {
      var v := w[..|w| - 1];
      WalkStaysInBall(table, S, v, k - 1);
      assert Adjacent(table, w[|w| - 2], w[|w| - 1]);
      NeighborIsAdjacent(table, Ball(table, S, k - 1), w[|w| - 1]);
    }
  }

  lemma {:induction false} BallMonotone(table: seq<Edge>, S: set<NodeId>, j: nat, k: nat)
    requires j <= k
    ensures Ball(table, S, j) <= Ball(table, S, k)
    decreases k - j
  {
    if j < k {
      BallMonotone(table, S, j + 1, k);
    }
  }

  lemma NeighborInBall(table: seq<Edge>, S: set<NodeId>, k: nat, x: NodeId, e: Edge)
    requires x in Ball(table, S, k) && e in table && Touches(e, x)
    ensures Other(e, x) in Ball(table, S, k + 1)
  {
    FarEndIsAdjacent(table, e, x);
    NeighborIsAdjacent(table, Ball(table, S, k), Other(e, x));
  }

  // ----- how many edge rows expanding a set of nodes reads -----

  /** An edge is read once for each of its distinct endpoints that is expanded. */
  ghost function Demand(table: seq<Edge>, B: set<NodeId>): nat {
    if table == [] then 0
    else
      var e := table[0];
      (if e.source in B then 1 else 0)
      + (if e.target in B && e.target != e.source then 1 else 0)
      + Demand(table[1..], B)
  }

  lemma {:induction false} DemandAdd(table: seq<Edge>, B: set<NodeId>, x: NodeId)
    requires x !in B
    ensures Demand(table, B + {x}) == Demand(table, B) + |Rows(table, x)|
  {
    if table != [] {
      DemandAdd(table[1..], B, x);
    }
  }

  lemma {:induction false} DemandMonotone(table: seq<Edge>, A: set<NodeId>, B: set<NodeId>)
    requires A <= B
    ensures Demand(table, A) <= Demand(table, B)
  {
    if table != [] {
      DemandMonotone(table[1..], A, B);
    }
  }

  lemma {:induction false} DemandEmpty(table: seq<Edge>)
    ensures Demand(table, {}) == 0
  {
    if table != [] {
      DemandEmpty(table[1..]);
    }
  }

  lemma RowsNext(e: Edge, table: seq<Edge>, n: NodeId)
    ensures Rows([e] + table, n) == (if e.source == n || e.target == n then [e] else []) + Rows(table, n)
  {
    assert ([e] + table)[1..] == table;
  }

  /** The rows of a node are its edges, ... */
  lemma RowsOfOne(e: Edge, n: NodeId)
    ensures Rows([e], n) == if e.source == n || e.target == n then [e] else []
  {
    RowsNext(e, [], n);
    assert [e] + [] == [e] && Rows([], n) == [];
  }

  /** ... in the order of the table, each as often as it is listed. */
  lemma {:induction false} RowsInOrder(a: seq<Edge>, b: seq<Edge>, n: NodeId)
    ensures Rows(a + b, n) == Rows(a, n) + Rows(b, n)
  {
    if a == [] {
      assert a + b == b;
    } else {
      var e, rest := a[0], a[1..];
      RowsInOrder(rest, b, n);
      RowsNext(e, rest, n);
      RowsNext(e, rest + b, n);
      Seqs.AppendAssoc([e], rest, b);
      Seqs.AppendAssoc(if e.source == n || e.target == n then [e] else [], Rows(rest, n), Rows(b, n));
      assert a == [e] + rest;
    }
  }

  /** The rows of the nodes of `order`, one node after the other. */
  ghost function AllRows(table: seq<Edge>, order: seq<NodeId>): seq<Edge> {
    if order == [] then []
    else AllRows(table, order[..|order| - 1]) + Rows(table, order[|order| - 1])
  }

  lemma AllRowsAppend(table: seq<Edge>, order: seq<NodeId>, x: NodeId)
    ensures AllRows(table, order + [x]) == AllRows(table, order) + Rows(table, x)
  {
    assert (order + [x])[..|order|] == order;
  }

  // ----- provenance lists -----

  /** The items of `s` but for the dropped ones, each once, in the order of first occurrence. */
  ghost function FirstDistinct(s: seq<string>, dropped: set<string>): seq<string> {
    if s == [] then []
    else
      var r, x := FirstDistinct(s[..|s| - 1], dropped), s[|s| - 1];
      if x in dropped || x in r then r else r + [x]
  }

  lemma {:induction false} FirstDistinctIsDistinct(s: seq<string>, dropped: set<string>)
    ensures forall x :: x in FirstDistinct(s, dropped) <==> x in s && x !in dropped
    ensures forall i, j :: 0 <= i < j < |FirstDistinct(s, dropped)| ==>
              FirstDistinct(s, dropped)[i] != FirstDistinct(s, dropped)[j]
  {
    if s != [] {
      FirstDistinctIsDistinct(s[..|s| - 1], dropped);
      assert s == s[..|s| - 1] + [s[|s| - 1]];
    }
  }

  lemma {:induction false} FirstDistinctInOrder(s: seq<string>, dropped: set<string>, k: nat)
    requires k < |FirstDistinct(s, dropped)|
    ensures exists i :: 0 <= i < |s| && s[i] == FirstDistinct(s, dropped)[k] && s[i] !in s[..i]
                        && FirstDistinct(s[..i], dropped) == FirstDistinct(s, dropped)[..k]
  {
    var t, x := s[..|s| - 1], s[|s| - 1];
    FirstDistinctIsDistinct(t, dropped);
    assert s == t + [x];
    if k < |FirstDistinct(t, dropped)| {
      FirstDistinctInOrder(t, dropped, k);
      var i :| 0 <= i < |t| && t[i] == FirstDistinct(t, dropped)[k] && t[i] !in t[..i]
               && FirstDistinct(t[..i], dropped) == FirstDistinct(t, dropped)[..k];
      assert t[..i] == s[..i];
      assert s[i] == t[i];
      assert FirstDistinct(t, dropped)[..k] == FirstDistinct(s, dropped)[..k];
    } else {
      assert s[..|s| - 1] == t;
      assert FirstDistinct(s, dropped) == FirstDistinct(t, dropped) + [x];
      assert FirstDistinct(s, dropped)[..k] == FirstDistinct(t, dropped);
    }
  }

  function Documents(edges: seq<Edge>): (r: seq<string>)
    ensures |r| == |edges|
  {
    seq(|edges|, i requires 0 <= i < |edges| => edges[i].document)
  }

  function Sections(edges: seq<Edge>): (r: seq<string>)
    ensures |r| == |edges|
  {
    seq(|edges|, i requires 0 <= i < |edges| => edges[i].section)
  }

  function Chunks(edges: seq<Edge>): (r: seq<string>)
    ensures |r| == |edges|
  {
    seq(|edges|, i requires 0 <= i < |edges| => edges[i].chunk)
  }

  lemma FirstDistinctAppend(s: seq<string>, dropped: set<string>, x: string)
    ensures FirstDistinct(s + [x], dropped)
         == if x in dropped || x in FirstDistinct(s, dropped) then FirstDistinct(s, dropped)
            else FirstDistinct(s, dropped) + [x]
  {
    assert (s + [x])[..|s|] == s;
  }

  lemma FieldsAppend(edges: seq<Edge>, e: Edge)
    ensures Documents(edges + [e]) == Documents(edges) + [e.document]
    ensures Sections(edges + [e]) == Sections(edges) + [e.section]
    ensures Chunks(edges + [e]) == Chunks(edges) + [e.chunk]
  {
  }

  /** The edges read so far and the provenance lists gathered from them. */
  datatype Trail = Trail(edges: seq<Edge>, documents: seq<string>, sections: seq<string>, chunks: seq<string>)

  /** A missing reference. */
  const MISSING := {""}

  ghost predicate Provenance(trail: Trail, limits: Limits) {
    && trail.documents == Take(FirstDistinct(Documents(trail.edges), MISSING), limits.maxDocuments)
    && trail.sections == FirstDistinct(Sections(trail.edges), MISSING)
    && trail.chunks == FirstDistinct(Chunks(trail.edges), MISSING)
  }

  method RecordEdge(trail: Trail, e: Edge, limits: Limits) returns (r: Trail)
    requires Provenance(trail, limits)
    ensures Provenance(r, limits)
    ensures r.edges == trail.edges + [e]
  {
    FieldsAppend(trail.edges, e);
    FirstDistinctAppend(Documents(trail.edges), MISSING, e.document);
    FirstDistinctAppend(Sections(trail.edges), MISSING, e.section);
    FirstDistinctAppend(Chunks(trail.edges), MISSING, e.chunk);
    var documents, sections, chunks := trail.documents, trail.sections, trail.chunks;
    if e.document != "" && e.document !in documents {
      if |documents| < limits.maxDocuments {
        documents := documents + [e.document];
      }
    }
    if e.section != "" && e.section !in sections {
      sections := sections + [e.section];
    }
    if e.chunk != "" && e.chunk !in chunks {
      chunks := chunks + [e.chunk];
    }
    r := Trail(trail.edges + [e], documents, sections, chunks);
  }

  // ----- one step of the search: reading the rows of one node -----

  datatype Entry = Entry(node: NodeId, hop: nat)

  function Entries(nodes: seq<NodeId>, hop: nat): (r: seq<Entry>)
    ensures |r| == |nodes|
  {
    seq(|nodes|, i requires 0 <= i < |nodes| => Entry(nodes[i], hop))
  }

  /** What is left to expand: the found nodes go to the end; the edge cap drops everything. */
  function NextQueue(queue: seq<Entry>, found: seq<NodeId>, hop: nat, cut: bool): seq<Entry> {
    if cut then [] else queue + Entries(found, hop + 1)
  }

  /** The nodes discovered from `rows`: each new far end, in row order, while fewer than
      `cap` nodes are visited. */
  ghost function Found(rows: seq<Edge>, node: NodeId, visited: set<NodeId>, cap: nat): seq<NodeId> {
    if rows == [] then []
    else
      var found := Found(rows[..|rows| - 1], node, visited, cap);
      var y := Other(rows[|rows| - 1], node);
      if y in visited || y in found || cap <= |visited| + |found| then found else found + [y]
  }

  ghost function Elements(s: seq<NodeId>): (r: set<NodeId>)
    ensures forall x :: x in r <==> x in s
  {
    set x | x in s
  }

  lemma {:induction false} FoundProperties(rows: seq<Edge>, node: NodeId, visited: set<NodeId>, cap: nat)
    ensures var found := Found(rows, node, visited, cap);
            && (forall i, j :: 0 <= i < j < |found| ==> found[i] != found[j])
            && (forall y :: y in found ==> y !in visited && exists e :: e in rows && Other(e, node) == y)
            && (|visited| + |found| < cap ==>
                  forall e :: e in rows ==> Other(e, node) in visited || Other(e, node) in found)
            && (found == [] || |visited| + |found| <= cap)
  {
    if rows != [] {
      var front, e := rows[..|rows| - 1], rows[|rows| - 1];
      FoundProperties(front, node, visited, cap);
      assert rows == front + [e];
      forall y | y in Found(rows, node, visited, cap) ensures exists e :: e in rows && Other(e, node) == y {
        if y in Found(front, node, visited, cap) {
          var d :| d in front && Other(d, node) == y;
          assert d in rows;
        } else {
          assert e in rows;
        }
      }
    }
  }

  lemma FoundAppend(rows: seq<Edge>, e: Edge, node: NodeId, visited: set<NodeId>, cap: nat)
    ensures var found, y := Found(rows, node, visited, cap), Other(e, node);
            Found(rows + [e], node, visited, cap)
            == if y in visited || y in found || cap <= |visited| + |found| then found else found + [y]
  {
    assert (rows + [e])[..|rows|] == rows;
  }

  lemma DiscoverAppend(visited: set<NodeId>, queue: seq<Entry>, found: seq<NodeId>, x: NodeId, hop: nat)
    ensures visited + Elements(found + [x]) == visited + Elements(found) + {x}
    ensures NextQueue(queue, found + [x], hop, false) == NextQueue(queue, found, hop, false) + [Entry(x, hop + 1)]
  {
    assert Entries(found + [x], hop + 1) == Entries(found, hop + 1) + [Entry(x, hop + 1)];
  }

  lemma {:induction false} DistinctSize(s: seq<NodeId>)
    requires forall i, j :: 0 <= i < j < |s| ==> s[i] != s[j]
    ensures |Elements(s)| == |s|
  {
    if s != [] {
      var t := s[..|s| - 1];
      DistinctSize(t);
      assert Elements(s) == Elements(t) + {s[|s| - 1]};
    }
  }

  lemma {:induction false} DemandOfOrder(table: seq<Edge>, order: seq<NodeId>)
    requires forall i, j :: 0 <= i < j < |order| ==> order[i] != order[j]
    ensures |AllRows(table, order)| == Demand(table, Elements(order))
  {
    if order == [] {
      DemandEmpty(table);
      assert Elements(order) == {};
    } else {
      var front, x := order[..|order| - 1], order[|order| - 1];
      DemandOfOrder(table, front);
      DemandAdd(table, Elements(front), x);
      assert Elements(order) == Elements(front) + {x};
    }
  }

  /** The inner loop: follow the rows of one node, until the edge cap is met.  `read` are the
      rows followed and `found` the nodes they led to. */
  method ReadRows(rows: seq<Edge>, node: NodeId, hop: nat, limits: Limits,
                  visited0: set<NodeId>, queue0: seq<Entry>, trail0: Trail)
    returns (visited: set<NodeId>, queue: seq<Entry>, trail: Trail, ghost read: seq<Edge>, ghost found: seq<NodeId>)
    requires |trail0.edges| <= limits.maxEdges && Provenance(trail0, limits)
    ensures read == Take(rows, limits.maxEdges - |trail0.edges|)
    ensures found == Found(read, node, visited0, limits.maxNodes)
    ensures trail.edges == trail0.edges + read && Provenance(trail, limits)
    ensures visited == visited0 + Elements(found) && |visited| == |visited0| + |found|
    ensures queue == NextQueue(queue0, found, hop, |read| < |rows|)
  {
    visited, queue, trail, read, found := visited0, queue0, trail0, [], [];
    for i := 0 to |rows|
      invariant read == rows[..i] && |trail0.edges| + i <= limits.maxEdges
      invariant trail.edges == trail0.edges + read && Provenance(trail, limits)
      invariant found == Found(read, node, visited0, limits.maxNodes)
      invariant visited == visited0 + Elements(found) && |visited| == |visited0| + |found|
      invariant queue == NextQueue(queue0, found, hop, false)
    {
      if |trail.edges| == limits.maxEdges {
        queue := [];
        return;
      }
      Seqs.TakeNext(rows, i);
      Seqs.AppendAssoc(trail0.edges, rows[..i], [rows[i]]);
      trail := RecordEdge(trail, rows[i], limits);
      FoundAppend(read, rows[i], node, visited0, limits.maxNodes);
      read := read + [rows[i]];
      visited, queue, found := Discover(Other(rows[i], node), hop, limits.maxNodes, visited0, queue0, visited, queue,
                                        found);
    }
  }

  /** A neighbor that is new is visited and queued, as long as the node cap allows. */
  method Discover(neighbor: NodeId, hop: nat, cap: nat, ghost visited0: set<NodeId>, ghost queue0: seq<Entry>,
                  visited: set<NodeId>, queue: seq<Entry>, ghost found: seq<NodeId>)
    returns (visited1: set<NodeId>, queue1: seq<Entry>, ghost found1: seq<NodeId>)
    requires visited == visited0 + Elements(found) && |visited| == |visited0| + |found|
    requires queue == NextQueue(queue0, found, hop, false)
    ensures visited1 == if neighbor !in visited && |visited| < cap then visited + {neighbor} else visited
    ensures queue1 == if neighbor !in visited && |visited| < cap then queue + [Entry(neighbor, hop + 1)] else queue
    ensures found1
         == if neighbor in visited0 || neighbor in found || cap <= |visited0| + |found| then found
            else found + [neighbor]
    ensures visited1 == visited0 + Elements(found1) && |visited1| == |visited0| + |found1|
    ensures queue1 == NextQueue(queue0, found1, hop, false)
  {
    visited1, queue1, found1 := visited, queue, found;
    if neighbor !in visited && |visited| < cap {
      DiscoverAppend(visited0, queue0, found, neighbor, hop);
      visited1 := visited + {neighbor};
      queue1 := queue + [Entry(neighbor, hop + 1)];
      found1 := found + [neighbor];
    }
  }

  // ----- the breadth-first invariant -----

  /** `hop` labels every visited node with a distance bound that some walk attains; `order`
      lists the nodes whose rows were read. */
  datatype Search = Search(visited: set<NodeId>, hop: map<NodeId, nat>, queue: seq<Entry>, order: seq<NodeId>)

  ghost predicate Labelled(table: seq<Edge>, S: set<NodeId>, limits: Limits, s: Search) {
    && s.hop.Keys == s.visited
    && S <= s.visited
    && (forall x :: x in S ==> s.hop[x] == 0)
    && (forall x :: x in s.visited ==> s.hop[x] <= limits.maxHops && x in Ball(table, S, s.hop[x]))
  }

  ghost predicate QueueInOrder(s: Search)
    requires s.hop.Keys == s.visited
  {
    && (forall i :: 0 <= i < |s.queue| ==> s.queue[i].node in s.visited && s.hop[s.queue[i].node] == s.queue[i].hop)
    && (forall i, j :: 0 <= i < j < |s.queue| ==> s.queue[i].node != s.queue[j].node)
    && (forall i, j :: 0 <= i < j < |s.queue| ==> s.queue[i].hop <= s.queue[j].hop)
    && (s.queue != [] ==> forall x :: x in s.visited ==> s.hop[x] <= s.queue[0].hop + 1)
  }

  ghost predicate OrderInOrder(limits: Limits, s: Search)
    requires s.hop.Keys == s.visited
  {
    && (forall x :: x in s.order ==> x in s.visited && s.hop[x] < limits.maxHops)
    && (forall i, j :: 0 <= i < j < |s.order| ==> s.order[i] != s.order[j] && s.hop[s.order[i]] <= s.hop[s.order[j]])
    && (forall i, x :: 0 <= i < |s.queue| && x in s.order ==> x != s.queue[i].node && s.hop[x] <= s.queue[i].hop)
  }

  ghost predicate Inv(table: seq<Edge>, S: set<NodeId>, limits: Limits, s: Search) {
    Labelled(table, S, limits, s) && QueueInOrder(s) && OrderInOrder(limits, s)
  }

  /** Every visited node is waiting, was expanded, or lies at the hop limit. */
  ghost predicate Accounted(limits: Limits, s: Search)
    requires s.hop.Keys == s.visited
  {
    forall x :: x in s.visited ==>
      s.hop[x] == limits.maxHops || x in s.order || exists i :: 0 <= i < |s.queue| && s.queue[i].node == x
  }

  /** The neighbours of every expanded node are visited, at most one hop further. */
  ghost predicate Closed(table: seq<Edge>, s: Search)
    requires s.hop.Keys == s.visited
    requires forall x :: x in s.order ==> x in s.visited
  {
    forall e, x :: e in table && x in s.order && Touches(e, x) ==>
      Other(e, x) in s.visited && s.hop[Other(e, x)] <= s.hop[x] + 1
  }

  /** Some node of the ball had to be refused. */
  ghost predicate Refused(table: seq<Edge>, S: set<NodeId>, limits: Limits, s: Search) {
    limits.maxNodes <= |s.visited| && exists y :: y in Ball(table, S, limits.maxHops) && y !in s.visited
  }

  ghost function Skip(s: Search): Search
    requires s.queue != []
  {
    s.(queue := s.queue[1..])
  }

  ghost function Relabel(visited: set<NodeId>, hops: map<NodeId, nat>, found: seq<NodeId>, hop: nat): map<NodeId, nat> {
    map x | x in visited + Elements(found) :: if x in hops then hops[x] else hop + 1
  }

  ghost function Expand(s: Search, found: seq<NodeId>, cut: bool): (r: Search)
    requires s.queue != []
  {
    var node, hop := s.queue[0].node, s.queue[0].hop;
    Search(s.visited + Elements(found),
           Relabel(s.visited, s.hop, found, hop),
           NextQueue(s.queue[1..], found, hop, cut),
           s.order + [node])
  }

  lemma FoundInBall(table: seq<Edge>, S: set<NodeId>, node: NodeId, hop: nat, rows: seq<Edge>,
                    visited: set<NodeId>, cap: nat, y: NodeId)
    requires node in Ball(table, S, hop)
    requires forall e :: e in rows ==> e in table && Touches(e, node)
    requires y in Found(rows, node, visited, cap)
    ensures y in Ball(table, S, hop + 1)
  {
    FoundProperties(rows, node, visited, cap);
    var e :| e in rows && Other(e, node) == y;
    NeighborInBall(table, S, hop, node, e);
  }

  lemma ExpandKeepsLabels(table: seq<Edge>, S: set<NodeId>, limits: Limits, s: Search, found: seq<NodeId>, cut: bool)
    requires Labelled(table, S, limits, s)
    requires s.queue != [] && s.queue[0].hop < limits.maxHops
    requires forall y :: y in found ==> y in Ball(table, S, s.queue[0].hop + 1)
    ensures Labelled(table, S, limits, Expand(s, found, cut))
  {
    var r := Expand(s, found, cut);
    forall x | x in r.visited ensures r.hop[x] <= limits.maxHops && x in Ball(table, S, r.hop[x]) {
      if x in s.visited {
        assert r.hop[x] == s.hop[x];
      } else {
        assert x in found && r.hop[x] == s.queue[0].hop + 1;
      }
    }
  }

  /** The entries after an expansion: the rest of the queue, then the nodes found. */
  lemma ExpandedEntry(s: Search, found: seq<NodeId>, r: Search, i: nat)
    requires s.queue != [] && r == Expand(s, found, false) && i < |r.queue|
    ensures |r.queue| == |s.queue| - 1 + |found|
    ensures r.queue[i] == if i < |s.queue| - 1 then s.queue[i + 1]
                          else Entry(found[i - (|s.queue| - 1)], s.queue[0].hop + 1)
  {
  }

  lemma ExpandedLabel(s: Search, found: seq<NodeId>, r: Search, i: nat)
    requires s.hop.Keys == s.visited && QueueInOrder(s) && s.queue != []
    requires forall y :: y in found ==> y !in s.visited
    requires r == Expand(s, found, false) && i < |r.queue|
    ensures r.hop.Keys == r.visited && r.queue[i].node in r.visited && r.hop[r.queue[i].node] == r.queue[i].hop
    ensures s.queue[0].hop <= r.queue[i].hop <= s.queue[0].hop + 1
  {
    ExpandedEntry(s, found, r, i);
    if i < |s.queue| - 1 {
      assert s.queue[i + 1].node in s.visited;
    } else {
      assert found[i - (|s.queue| - 1)] in found;
    }
  }

  lemma ExpandedPair(s: Search, found: seq<NodeId>, r: Search, i: nat, j: nat)
    requires s.hop.Keys == s.visited && QueueInOrder(s) && s.queue != []
    requires forall k, l :: 0 <= k < l < |found| ==> found[k] != found[l]
    requires forall y :: y in found ==> y !in s.visited
    requires r == Expand(s, found, false) && i < j < |r.queue|
    ensures r.queue[i].node != r.queue[j].node && r.queue[i].hop <= r.queue[j].hop
  {
    var n := |s.queue| - 1;
    ExpandedEntry(s, found, r, i);
    ExpandedEntry(s, found, r, j);
    ExpandedLabel(s, found, r, i);
    if i < n <= j {
      assert s.queue[i + 1].node in s.visited && found[j - n] in found;
    }
  }

  lemma ExpandKeepsQueue(s: Search, found: seq<NodeId>, cut: bool)
    requires s.hop.Keys == s.visited && QueueInOrder(s) && s.queue != []
    requires forall i, j :: 0 <= i < j < |found| ==> found[i] != found[j]
    requires forall y :: y in found ==> y !in s.visited
    ensures QueueInOrder(Expand(s, found, cut))
  {
    var r := Expand(s, found, cut);
    if !cut {
      forall i | 0 <= i < |r.queue|
        ensures r.queue[i].node in r.visited && r.hop[r.queue[i].node] == r.queue[i].hop
        ensures s.queue[0].hop <= r.queue[i].hop
      {
        ExpandedLabel(s, found, r, i);
      }
      forall i, j | 0 <= i < j < |r.queue|
        ensures r.queue[i].node != r.queue[j].node && r.queue[i].hop <= r.queue[j].hop
      {
        ExpandedPair(s, found, r, i, j);
      }
    }
  }

  lemma ExpandKeepsOrder(limits: Limits, s: Search, found: seq<NodeId>, cut: bool)
    requires s.hop.Keys == s.visited && QueueInOrder(s) && OrderInOrder(limits, s)
    requires s.queue != [] && s.queue[0].hop < limits.maxHops
    requires forall y :: y in found ==> y !in s.visited
    ensures OrderInOrder(limits, Expand(s, found, cut))
  {
    var node, hop := s.queue[0].node, s.queue[0].hop;
    var r, n := Expand(s, found, cut), |s.queue| - 1;
    forall i | 0 <= i < |s.order| ensures s.order[i] != node && s.hop[s.order[i]] <= hop {
      assert s.order[i] in s.order;
    }
    forall i, x | 0 <= i < |r.queue| && x in r.order ensures x != r.queue[i].node && r.hop[x] <= r.queue[i].hop {
      if i < n {
        assert r.queue[i] == s.queue[i + 1];
      } else {
        assert r.queue[i] == Entry(found[i - n], hop + 1);
      }
    }
  }

  lemma ExpandKeepsInv(table: seq<Edge>, S: set<NodeId>, limits: Limits, s: Search, rows: seq<Edge>,
                       found: seq<NodeId>, cut: bool)
    requires Inv(table, S, limits, s)
    requires s.queue != [] && s.queue[0].hop < limits.maxHops
    requires forall e :: e in rows ==> e in table && Touches(e, s.queue[0].node)
    requires found == Found(rows, s.queue[0].node, s.visited, limits.maxNodes)
    ensures Inv(table, S, limits, Expand(s, found, cut))
  {
    var node, hop := s.queue[0].node, s.queue[0].hop;
    FoundProperties(rows, node, s.visited, limits.maxNodes);
    forall y | y in found ensures y in Ball(table, S, hop + 1) {
      FoundInBall(table, S, node, hop, rows, s.visited, limits.maxNodes, y);
    }
    ExpandKeepsLabels(table, S, limits, s, found, cut);
    ExpandKeepsQueue(s, found, cut);
    ExpandKeepsOrder(limits, s, found, cut);
  }

  // ----- what the finished search says about the ball -----

  ghost predicate Shortest(table: seq<Edge>, S: set<NodeId>, s: Search)
    requires s.hop.Keys == s.visited
  {
    forall x, k: nat :: x in s.visited && x in Ball(table, S, k) ==> s.hop[x] <= k
  }

  /** Without a refusal or a cut, the labels are closed under adjacency, so they cover the
      ball layer by layer. */
  lemma {:induction false} ClosedCoversBall(table: seq<Edge>, S: set<NodeId>, limits: Limits, s: Search, k: nat)
    requires Inv(table, S, limits, s) && s.queue == [] && Accounted(limits, s) && Closed(table, s)
    requires k <= limits.maxHops
    ensures forall x :: x in Ball(table, S, k) ==> x in s.visited && s.hop[x] <= k
  {
    if k > 0 {
      ClosedCoversBall(table, S, limits, s, k - 1);
      forall x | x in Neighbors(table, Ball(table, S, k - 1)) ensures x in s.visited && s.hop[x] <= k {
        var y := FoundFrom(table, Ball(table, S, k - 1), x);
        var e := AdjacentIsFarEnd(table, y, x);
        assert y in s.order;
      }
    }
  }

  lemma ExactSearch(table: seq<Edge>, S: set<NodeId>, limits: Limits, s: Search)
    requires ValidLimits(limits)
    requires Inv(table, S, limits, s) && s.queue == [] && Accounted(limits, s) && Closed(table, s)
    ensures s.visited == Ball(table, S, limits.maxHops)
    ensures Elements(s.order) == Ball(table, S, limits.maxHops - 1)
    ensures Shortest(table, S, s)
  {
    ClosedCoversBall(table, S, limits, s, limits.maxHops);
    ClosedCoversBall(table, S, limits, s, limits.maxHops - 1);
    VisitedInBall(table, S, limits, s);
    OrderInBall(table, S, limits, s);
    forall x, k: nat | x in s.visited && x in Ball(table, S, k) ensures s.hop[x] <= k {
      if k <= limits.maxHops {
        ClosedCoversBall(table, S, limits, s, k);
      }
    }
  }

  lemma VisitedInBall(table: seq<Edge>, S: set<NodeId>, limits: Limits, s: Search)
    requires Labelled(table, S, limits, s)
    ensures s.visited <= Ball(table, S, limits.maxHops)
  {
    forall x | x in s.visited ensures x in Ball(table, S, limits.maxHops) {
      BallMonotone(table, S, s.hop[x], limits.maxHops);
    }
  }

  lemma OrderInBall(table: seq<Edge>, S: set<NodeId>, limits: Limits, s: Search)
    requires ValidLimits(limits) && Inv(table, S, limits, s)
    ensures Elements(s.order) <= Ball(table, S, limits.maxHops - 1)
  {
    forall x | x in s.order ensures x in Ball(table, S, limits.maxHops - 1) {
      BallMonotone(table, S, s.hop[x], limits.maxHops - 1);
    }
  }

  // ----- the traversal -----

  lemma ExpandKeepsAccounted(limits: Limits, s: Search, found: seq<NodeId>)
    requires s.hop.Keys == s.visited && s.queue != [] && Accounted(limits, s)
    ensures Accounted(limits, Expand(s, found, false))
  {
    var r, n := Expand(s, found, false), |s.queue| - 1;
    forall x | x in r.visited
      ensures r.hop[x] == limits.maxHops || x in r.order || exists i :: 0 <= i < |r.queue| && r.queue[i].node == x
    {
      if x in s.visited {
        if s.hop[x] != limits.maxHops && x !in s.order {
          var i :| 0 <= i < |s.queue| && s.queue[i].node == x;
          assert i > 0 ==> r.queue[i - 1].node == x;
        }
      } else {
        var i :| 0 <= i < |found| && found[i] == x;
        assert r.queue[n + i].node == x;
      }
    }
  }

  lemma SkipKeepsAccounted(limits: Limits, s: Search)
    requires s.hop.Keys == s.visited && s.queue != [] && Accounted(limits, s)
    requires s.queue[0].node in s.visited && s.hop[s.queue[0].node] == limits.maxHops
    ensures Accounted(limits, Skip(s))
  {
    var r := Skip(s);
    forall x | x in r.visited
      ensures r.hop[x] == limits.maxHops || x in r.order || exists i :: 0 <= i < |r.queue| && r.queue[i].node == x
    {
      if s.hop[x] != limits.maxHops && x !in s.order {
        var i :| 0 <= i < |s.queue| && s.queue[i].node == x;
        assert r.queue[i - 1].node == x;
      }
    }
  }

  lemma SkipKeepsInv(table: seq<Edge>, S: set<NodeId>, limits: Limits, s: Search)
    requires Inv(table, S, limits, s) && s.queue != []
    ensures Inv(table, S, limits, Skip(s))
  {
    var r := Skip(s);
    assert forall i :: 0 <= i < |r.queue| ==> r.queue[i] == s.queue[i + 1];
  }

  /** Reading all rows of a node either refuses a node of the ball for lack of room or leaves
      the labels closed. */
  lemma ExpandRefusesOrCloses(table: seq<Edge>, S: set<NodeId>, limits: Limits, s: Search, found: seq<NodeId>)
    requires Inv(table, S, limits, s)
    requires s.queue != [] && s.queue[0].hop < limits.maxHops
    requires found == Found(Rows(table, s.queue[0].node), s.queue[0].node, s.visited, limits.maxNodes)
    requires |s.visited + Elements(found)| == |s.visited| + |found|
    requires Refused(table, S, limits, s) || Closed(table, s)
    ensures Refused(table, S, limits, Expand(s, found, false)) || Closed(table, Expand(s, found, false))
  {
    var node := s.queue[0].node;
    var rows := Rows(table, node);
    FoundProperties(rows, node, s.visited, limits.maxNodes);
    if Refused(table, S, limits, s) {
      RefusedStays(table, S, limits, s, found);
    } else if e :| e in rows && Other(e, node) !in s.visited + Elements(found) {
      FarEndInBall(table, S, limits, node, s.queue[0].hop, e);
      ExpandRefuses(table, S, limits, s, found, Other(e, node));
    } else {
      ExpandCloses(table, s, found);
    }
  }

  lemma RefusedStays(table: seq<Edge>, S: set<NodeId>, limits: Limits, s: Search, found: seq<NodeId>)
    requires s.queue != [] && Refused(table, S, limits, s)
    requires found == [] || |s.visited| + |found| <= limits.maxNodes
    ensures Refused(table, S, limits, Expand(s, found, false))
  {
    assert found == [];
    assert Elements(found) == {};
    assert Expand(s, found, false).visited == s.visited;
  }

  lemma ExpandRefuses(table: seq<Edge>, S: set<NodeId>, limits: Limits, s: Search, found: seq<NodeId>, y: NodeId)
    requires s.queue != [] && y in Ball(table, S, limits.maxHops) && y !in s.visited + Elements(found)
    requires limits.maxNodes <= |s.visited + Elements(found)|
    ensures Refused(table, S, limits, Expand(s, found, false))
  {
    assert Expand(s, found, false).visited == s.visited + Elements(found);
  }

  lemma FarEndInBall(table: seq<Edge>, S: set<NodeId>, limits: Limits, node: NodeId, hop: nat, e: Edge)
    requires hop < limits.maxHops && node in Ball(table, S, hop) && e in table && Touches(e, node)
    ensures Other(e, node) in Ball(table, S, limits.maxHops)
  {
    NeighborInBall(table, S, hop, node, e);
    BallMonotone(table, S, hop + 1, limits.maxHops);
  }

  lemma ExpandCloses(table: seq<Edge>, s: Search, found: seq<NodeId>)
    requires s.hop.Keys == s.visited && s.queue != [] && QueueInOrder(s)
    requires forall x :: x in s.order ==> x in s.visited
    requires Closed(table, s)
    requires forall e :: e in Rows(table, s.queue[0].node) ==> Other(e, s.queue[0].node) in s.visited + Elements(found)
    ensures Closed(table, Expand(s, found, false))
  {
    var node, r := s.queue[0].node, Expand(s, found, false);
    forall e, x | e in table && x in r.order && Touches(e, x)
      ensures Other(e, x) in r.visited && r.hop[Other(e, x)] <= r.hop[x] + 1
    {
      if x == node {
        assert e in Rows(table, node);
      } else {
        assert x in s.order;
      }
    }
  }

  lemma CutMeansDemand(table: seq<Edge>, S: set<NodeId>, limits: Limits, s: Search)
    requires ValidLimits(limits) && Inv(table, S, limits, s)
    ensures |AllRows(table, s.order)| <= Demand(table, Ball(table, S, limits.maxHops - 1))
  {
    OrderInBall(table, S, limits, s);
    DemandOfOrder(table, s.order);
    DemandMonotone(table, Elements(s.order), Ball(table, S, limits.maxHops - 1));
  }

  ghost function Start(starts: seq<NodeId>): Search {
    Search(Elements(starts), map x | x in Elements(starts) :: 0, Entries(starts, 0), [])
  }

  /** The loop invariant: either the edge cap cut the search, or it has accounted for
      every visited node so far. */
  ghost predicate Running(table: seq<Edge>, S: set<NodeId>, limits: Limits, s: Search, edges: seq<Edge>, cut: bool)
    requires ValidLimits(limits)
  {
    && Inv(table, S, limits, s)
    && |edges| <= limits.maxEdges
    && |s.visited| <= (if limits.maxNodes < |S| then |S| else limits.maxNodes)
    && edges <= AllRows(table, s.order)
    && (limits.maxNodes < |S| ==> s.visited == S && edges == [])
    && (if cut then
          s.queue == [] && |edges| == limits.maxEdges
          && limits.maxEdges < Demand(table, Ball(table, S, limits.maxHops - 1))
        else
          edges == AllRows(table, s.order) && Accounted(limits, s)
          && (Refused(table, S, limits, s) || Closed(table, s)))
  }

  lemma StartIsInv(table: seq<Edge>, starts: seq<NodeId>, limits: Limits)
    requires forall i, j :: 0 <= i < j < |starts| ==> starts[i] != starts[j]
    ensures Inv(table, Elements(starts), limits, Start(starts))
  {
    var s := Start(starts);
    assert forall x :: x in s.visited ==> s.hop[x] == 0;
    assert forall i :: 0 <= i < |s.queue| ==> s.queue[i] == Entry(starts[i], 0);
  }

  lemma StartRuns(table: seq<Edge>, starts: seq<NodeId>, limits: Limits)
    requires ValidLimits(limits)
    requires forall i, j :: 0 <= i < j < |starts| ==> starts[i] != starts[j]
    ensures Running(table, Elements(starts), limits, Start(starts), [], false)
  {
    DistinctSize(starts);
    StartIsInv(table, starts, limits);
    var s := Start(starts);
    assert Closed(table, s);
    forall x | x in s.visited ensures exists i :: 0 <= i < |s.queue| && s.queue[i].node == x {
      var i :| 0 <= i < |starts| && starts[i] == x;
      assert s.queue[i].node == x;
    }
  }

  lemma SkipKeepsRunning(table: seq<Edge>, S: set<NodeId>, limits: Limits, s: Search, edges: seq<Edge>, cut: bool)
    requires ValidLimits(limits) && Running(table, S, limits, s, edges, cut)
    requires s.queue != [] && limits.maxHops <= s.queue[0].hop
    ensures Running(table, S, limits, Skip(s), edges, cut)
  {
    SkipKeepsInv(table, S, limits, s);
    SkipKeepsAccounted(limits, s);
  }

  lemma ReadKeepsRunning(table: seq<Edge>, S: set<NodeId>, limits: Limits, s: Search, edges: seq<Edge>,
                         read: seq<Edge>, found: seq<NodeId>, cut: bool)
    requires ValidLimits(limits) && Running(table, S, limits, s, edges, false)
    requires s.queue != [] && |s.visited| <= limits.maxNodes && s.queue[0].hop < limits.maxHops
    requires read == Take(Rows(table, s.queue[0].node), limits.maxEdges - |edges|)
    requires cut == (|read| < |Rows(table, s.queue[0].node)|)
    requires found == Found(read, s.queue[0].node, s.visited, limits.maxNodes)
    requires |s.visited + Elements(found)| == |s.visited| + |found|
    ensures Running(table, S, limits, Expand(s, found, cut), edges + read, cut)
  {
    var node := s.queue[0].node;
    var rows := Rows(table, node);
    var r := Expand(s, found, cut);
    FoundProperties(read, node, s.visited, limits.maxNodes);
    ExpandKeepsInv(table, S, limits, s, read, found, cut);
    AllRowsAppend(table, s.order, node);
    Seqs.PrefixAppend(edges, rows, read);
    assert edges + read <= AllRows(table, r.order);
    if cut {
      CutMeansDemand(table, S, limits, r);
    } else {
      assert read == rows;
      ExpandKeepsAccounted(limits, s, found);
      ExpandRefusesOrCloses(table, S, limits, s, found);
    }
  }

  /** Nothing but the caps can keep the search from the whole ball. */
  ghost predicate NoCapBites(table: seq<Edge>, S: set<NodeId>, limits: Limits, s: Search, edges: seq<Edge>)
    requires ValidLimits(limits)
  {
    || (|s.visited| < limits.maxNodes && |edges| < limits.maxEdges)
    || (&& |Ball(table, S, limits.maxHops)| <= limits.maxNodes
        && Demand(table, Ball(table, S, limits.maxHops - 1)) <= limits.maxEdges)
  }

  lemma ProperSubsetIsSmaller<T>(a: set<T>, b: set<T>)
    requires a < b
    ensures |a| < |b|
  {
    assert b == a + (b - a);
  }

  lemma SubsetIsNoLarger<T>(a: set<T>, b: set<T>)
    requires a <= b
    ensures |a| <= |b|
  {
    assert b == a + (b - a);
  }

  lemma FinishedIsExact(table: seq<Edge>, S: set<NodeId>, limits: Limits, s: Search, edges: seq<Edge>, cut: bool)
    requires ValidLimits(limits) && Running(table, S, limits, s, edges, cut)
    requires s.queue == [] || limits.maxNodes < |s.visited|
    requires NoCapBites(table, S, limits, s, edges)
    ensures s.visited == Ball(table, S, limits.maxHops)
    ensures Shortest(table, S, s)
    ensures Elements(s.order) == Ball(table, S, limits.maxHops - 1)
    ensures edges == AllRows(table, s.order)
  {
    var ball := Ball(table, S, limits.maxHops);
    VisitedInBall(table, S, limits, s);
    BallMonotone(table, S, 0, limits.maxHops);
    SubsetIsNoLarger(s.visited, ball);
    if Refused(table, S, limits, s) {
      ProperSubsetIsSmaller(s.visited, ball);
      assert false;
    }
    ExactSearch(table, S, limits, s);
  }

  lemma FinishedFillsTheCap(table: seq<Edge>, S: set<NodeId>, limits: Limits, s: Search, edges: seq<Edge>, cut: bool)
    requires ValidLimits(limits) && Running(table, S, limits, s, edges, cut)
    requires s.queue == [] || limits.maxNodes < |s.visited|
    requires |S| <= limits.maxNodes && Demand(table, Ball(table, S, limits.maxHops - 1)) <= limits.maxEdges
    ensures |s.visited| == if |Ball(table, S, limits.maxHops)| <= limits.maxNodes then |Ball(table, S, limits.maxHops)|
                           else limits.maxNodes
  {
    var ball := Ball(table, S, limits.maxHops);
    VisitedInBall(table, S, limits, s);
    if Refused(table, S, limits, s) {
      ProperSubsetIsSmaller(s.visited, ball);
    } else {
      ExactSearch(table, S, limits, s);
    }
  }

  // ----- the order of discovery -----

  /** The far ends of the rows of a node. */
  ghost function FarEnds(rows: seq<Edge>, node: NodeId): (r: seq<NodeId>)
    ensures |r| == |rows|
  {
    seq(|rows|, i requires 0 <= i < |rows| => Other(rows[i], node))
  }

  /** The far ends of all rows of the nodes of `order`, as they are read. */
  ghost function Reached(table: seq<Edge>, order: seq<NodeId>): (r: seq<NodeId>)
    ensures |r| == |AllRows(table, order)|
  {
    if order == [] then []
    else Reached(table, order[..|order| - 1]) + FarEnds(Rows(table, order[|order| - 1]), order[|order| - 1])
  }

  /** How many nodes may be visited: the starts are, whatever the cap. */
  function NodeCap(limits: Limits, starts: seq<NodeId>): nat {
    Max(limits.maxNodes, |starts|)
  }

  /** The nodes discovered once `read` rows have been read: the starts and then the far ends, each
      once, as many as may be visited. */
  ghost function Discovery(table: seq<Edge>, starts: seq<NodeId>, limits: Limits, order: seq<NodeId>,
                           read: nat): seq<NodeId> {
    Take(FirstDistinct(starts + Take(Reached(table, order), read), {}), NodeCap(limits, starts))
  }

  lemma ReachedAppend(table: seq<Edge>, order: seq<NodeId>, x: NodeId)
    ensures Reached(table, order + [x]) == Reached(table, order) + FarEnds(Rows(table, x), x)
  {
    Seqs.DropLast(order, x);
  }

  lemma FarEndsAppend(rows: seq<Edge>, e: Edge, node: NodeId)
    ensures FarEnds(rows + [e], node) == FarEnds(rows, node) + [Other(e, node)]
  {
  }

  /** One more far end: a node found, if it is new and there is room. */
  lemma OneMoreDistinct(ends: seq<NodeId>, y: NodeId, cap: nat)
    ensures var before, all := Take(FirstDistinct(ends, {}), cap), FirstDistinct(ends, {});
            Take(FirstDistinct(ends + [y], {}), cap) == if y in before || cap <= |before| then before else before + [y]
  {
    var all := FirstDistinct(ends, {});
    FirstDistinctAppend(ends, {}, y);
    if |all| <= cap {
      Seqs.TakeAll(all);
    }
  }

  /** The nodes found from rows are the next ones among the first occurrences of the far ends. */
  lemma {:induction false} FoundIsNext(pre: seq<NodeId>, rows: seq<Edge>, node: NodeId, visited: set<NodeId>, cap: nat)
    requires visited == Elements(Take(FirstDistinct(pre, {}), cap)) && |visited| == |Take(FirstDistinct(pre, {}), cap)|
    ensures Take(FirstDistinct(pre + FarEnds(rows, node), {}), cap)
         == Take(FirstDistinct(pre, {}), cap) + Found(rows, node, visited, cap)
  {
    if rows == [] {
      assert pre + FarEnds(rows, node) == pre;
    } else {
      var front, e := rows[..|rows| - 1], rows[|rows| - 1];
      assert rows == front + [e];
      FoundIsNext(pre, front, node, visited, cap);
      FarEndsAppend(front, e, node);
      Seqs.AppendAssoc(pre, FarEnds(front, node), [Other(e, node)]);
      OneMoreDistinct(pre + FarEnds(front, node), Other(e, node), cap);
      FoundAppend(front, e, node, visited, cap);
    }
  }

  lemma {:induction false} DistinctStays(s: seq<NodeId>)
    requires forall i, j :: 0 <= i < j < |s| ==> s[i] != s[j]
    ensures FirstDistinct(s, {}) == s
  {
    if s != [] {
      var front, last := s[..|s| - 1], s[|s| - 1];
      DistinctStays(front);
      assert s == front + [last];
    }
  }

  lemma DiscoverySize(table: seq<Edge>, starts: seq<NodeId>, limits: Limits, order: seq<NodeId>, read: nat)
    ensures var disc := Discovery(table, starts, limits, order, read); |Elements(disc)| == |disc|
  {
    FirstDistinctIsDistinct(starts + Take(Reached(table, order), read), {});
    DistinctSize(Discovery(table, starts, limits, order, read));
  }

  /** Nodes are expanded in the order of their discovery: `disc` is the nodes expanded, those
      passed over at the hop limit, and the queue. */
  ghost predicate InDiscoveryOrder(limits: Limits, s: Search, disc: seq<NodeId>) {
    && s.visited == Elements(disc) && s.order <= disc && |s.order| + |s.queue| <= |disc|
    && (forall i :: 0 <= i < |s.queue| ==> s.queue[i].node == disc[|disc| - |s.queue| + i])
    && (|s.order| + |s.queue| < |disc| ==> forall i :: 0 <= i < |s.queue| ==> limits.maxHops <= s.queue[i].hop)
  }

  ghost predicate Tracked(table: seq<Edge>, starts: seq<NodeId>, limits: Limits, s: Search, edges: seq<Edge>,
                          disc: seq<NodeId>) {
    disc == Discovery(table, starts, limits, s.order, |edges|) && InDiscoveryOrder(limits, s, disc)
  }

  lemma StartIsTracked(table: seq<Edge>, starts: seq<NodeId>, limits: Limits)
    requires forall i, j :: 0 <= i < j < |starts| ==> starts[i] != starts[j]
    ensures Tracked(table, starts, limits, Start(starts), [], starts)
  {
    assert starts + Take(Reached(table, []), 0) == starts;
    DistinctStays(starts);
    Seqs.TakeAll(starts);
  }

  lemma SkipStaysTracked(table: seq<Edge>, starts: seq<NodeId>, limits: Limits, s: Search, edges: seq<Edge>,
                         disc: seq<NodeId>)
    requires Tracked(table, starts, limits, s, edges, disc) && s.hop.Keys == s.visited && QueueInOrder(s)
    requires s.queue != [] && limits.maxHops <= s.queue[0].hop
    ensures Tracked(table, starts, limits, Skip(s), edges, disc)
  {
    var r := Skip(s);
    assert forall i :: 0 <= i < |r.queue| ==> r.queue[i] == s.queue[i + 1];
  }

  lemma ExpandFollowsDiscovery(limits: Limits, s: Search, disc: seq<NodeId>, found: seq<NodeId>, cut: bool)
    requires InDiscoveryOrder(limits, s, disc) && s.queue != [] && s.queue[0].hop < limits.maxHops
    ensures InDiscoveryOrder(limits, Expand(s, found, cut), disc + found)
  {
    var r, n := Expand(s, found, cut), |s.queue| - 1;
    assert |s.order| + |s.queue| == |disc|;
    assert disc[|s.order|] == s.queue[0].node;
    assert s.order + [s.queue[0].node] <= disc;
    assert s.visited + Elements(found) == Elements(disc + found);
    if !cut {
      forall i | 0 <= i < |r.queue| ensures r.queue[i].node == (disc + found)[|disc + found| - |r.queue| + i] {
        ExpandedEntry(s, found, r, i);
      }
    }
  }

  lemma DiscoveryGrows(table: seq<Edge>, starts: seq<NodeId>, limits: Limits, order: seq<NodeId>, edges: seq<Edge>,
                       node: NodeId, read: seq<Edge>, visited: set<NodeId>)
    requires |edges| == |AllRows(table, order)| && read <= Rows(table, node) && |starts| <= limits.maxNodes
    requires visited == Elements(Discovery(table, starts, limits, order, |edges|))
    ensures Discovery(table, starts, limits, order + [node], |edges + read|)
         == Discovery(table, starts, limits, order, |edges|) + Found(read, node, visited, limits.maxNodes)
  {
    var ends := Reached(table, order);
    DiscoverySize(table, starts, limits, order, |edges|);
    ReachedAppend(table, order, node);
    Seqs.TakeAll(ends);
    assert Take(Reached(table, order + [node]), |edges + read|) == ends + FarEnds(read, node);
    Seqs.AppendAssoc(starts, ends, FarEnds(read, node));
    FoundIsNext(starts + ends, read, node, visited, limits.maxNodes);
  }

  lemma ReadStaysTracked(table: seq<Edge>, starts: seq<NodeId>, limits: Limits, s: Search, edges: seq<Edge>,
                         disc: seq<NodeId>, read: seq<Edge>, found: seq<NodeId>, cut: bool)
    requires Tracked(table, starts, limits, s, edges, disc) && edges == AllRows(table, s.order)
    requires s.queue != [] && s.queue[0].hop < limits.maxHops && |starts| <= limits.maxNodes
    requires read <= Rows(table, s.queue[0].node)
    requires found == Found(read, s.queue[0].node, s.visited, limits.maxNodes)
    ensures Tracked(table, starts, limits, Expand(s, found, cut), edges + read, disc + found)
  {
    DiscoveryGrows(table, starts, limits, s.order, edges, s.queue[0].node, read, s.visited);
    ExpandFollowsDiscovery(limits, s, disc, found, cut);
  }

  /** Below the edge cap every row of an expanded node was read, and all but the nodes at the hop
      limit were expanded. */
  ghost predicate AllRead(table: seq<Edge>, limits: Limits, s: Search, edges: seq<Edge>) {
    && edges == AllRows(table, s.order)
    && forall x :: x in s.visited && x in s.hop ==> x in s.order || s.hop[x] == limits.maxHops
  }

  lemma FinishedReadsAll(table: seq<Edge>, S: set<NodeId>, limits: Limits, s: Search, edges: seq<Edge>, cut: bool)
    requires ValidLimits(limits) && Running(table, S, limits, s, edges, cut)
    requires s.queue == [] && |edges| < limits.maxEdges
    ensures AllRead(table, limits, s, edges)
  {
  }

  /** The loop body for a node within the hop limit. */
  method ExpandNode(table: seq<Edge>, ghost S: set<NodeId>, limits: Limits, ghost s: Search, entry: Entry,
                    visited0: set<NodeId>, rest: seq<Entry>, trail0: Trail)
    returns (visited: set<NodeId>, queue: seq<Entry>, trail: Trail, ghost r: Search, ghost cut: bool,
             ghost read: seq<Edge>, ghost found: seq<NodeId>)
    requires ValidLimits(limits) && Provenance(trail0, limits)
    requires s.queue != [] && s.queue[0] == entry && s.queue[1..] == rest && s.visited == visited0
    requires entry.hop < limits.maxHops && |visited0| <= limits.maxNodes
    requires Running(table, S, limits, s, trail0.edges, false)
    ensures Provenance(trail, limits)
    ensures r == Expand(s, found, cut) && r.visited == visited && r.queue == queue
    ensures read <= Rows(table, entry.node) && found == Found(read, entry.node, visited0, limits.maxNodes)
    ensures trail.edges == trail0.edges + read && Running(table, S, limits, r, trail.edges, cut)
    ensures |visited| > |visited0| || |queue| <= |rest|
    ensures |visited0| <= |visited| <= limits.maxNodes
  {
    var rows := Rows(table, entry.node);
    visited, queue, trail, read, found := ReadRows(rows, entry.node, entry.hop, limits, visited0, rest, trail0);
    cut := |read| < |rows|;
    ReadKeepsRunning(table, S, limits, s, trail0.edges, read, found, cut);
    FoundProperties(read, entry.node, visited0, limits.maxNodes);
    r := Expand(s, found, cut);
  }

  /** The breadth-first loop, with the search it has made: the hop labels, and the order in
      which nodes were discovered and expanded. */
  method Explore(table: seq<Edge>, starts: seq<NodeId>, limits: Limits)
    returns (visited: set<NodeId>, trail: Trail, ghost s: Search, ghost cut: bool, ghost disc: seq<NodeId>)
    requires ValidLimits(limits)
    requires forall i, j :: 0 <= i < j < |starts| ==> starts[i] != starts[j]
    ensures Provenance(trail, limits)
    ensures s.visited == visited && (s.queue == [] || limits.maxNodes < |visited|)
    ensures Running(table, Elements(starts), limits, s, trail.edges, cut)
    ensures Tracked(table, starts, limits, s, trail.edges, disc)
  {
    ghost var S := Elements(starts);
    DistinctSize(starts);
    var queue := Entries(starts, 0);
    visited := set x | x in starts;
    trail := Trail([], [], [], []);
    cut := false;
    StartRuns(table, starts, limits);
    assert visited == S;
    s, disc := Start(starts), starts;
    StartIsTracked(table, starts, limits);
    while queue != [] && |visited| <= limits.maxNodes
      invariant s.visited == visited && s.queue == queue
      invariant Running(table, S, limits, s, trail.edges, cut)
      invariant Tracked(table, starts, limits, s, trail.edges, disc)
      invariant Provenance(trail, limits)
      decreases if |visited| <= limits.maxNodes then limits.maxNodes - |visited| else 0, |queue|
    {
      var entry := queue[0];
      queue := queue[1..];
      if entry.hop >= limits.maxHops {
        SkipKeepsRunning(table, S, limits, s, trail.edges, cut);
        SkipStaysTracked(table, starts, limits, s, trail.edges, disc);
        s := Skip(s);
        continue;
      }
      SubsetIsNoLarger(S, visited);
      ghost var before, edges, read, found := s, trail.edges, [], [];
      visited, queue, trail, s, cut, read, found := ExpandNode(table, S, limits, s, entry, visited, queue, trail);
      ReadStaysTracked(table, starts, limits, before, edges, disc, read, found, cut);
      disc := disc + found;
    }
  }

  ghost predicate WithinCaps(table: seq<Edge>, starts: seq<NodeId>, limits: Limits, s: Search, edges: seq<Edge>) {
    && |edges| <= limits.maxEdges && |s.visited| <= NodeCap(limits, starts)
    && s.visited <= Ball(table, Elements(starts), limits.maxHops)
    && (limits.maxNodes < |starts| ==> s.visited == Elements(starts) && edges == [])
  }

  /** What was visited and read is determined by the order of expansion, which is that of discovery. */
  ghost predicate FollowsDiscovery(table: seq<Edge>, starts: seq<NodeId>, limits: Limits, s: Search, edges: seq<Edge>) {
    var disc := Discovery(table, starts, limits, s.order, |edges|);
    && edges <= AllRows(table, s.order) && s.visited == Elements(disc) && s.order <= disc
    && (|starts| <= limits.maxNodes && |edges| < limits.maxEdges ==> AllRead(table, limits, s, edges))
  }

  /** When the edge cap leaves room for the whole ball, only the node cap is met. */
  ghost predicate FillsTheCap(table: seq<Edge>, S: set<NodeId>, limits: Limits, s: Search)
    requires ValidLimits(limits)
  {
    |S| <= limits.maxNodes && Demand(table, Ball(table, S, limits.maxHops - 1)) <= limits.maxEdges ==>
      var ball := Ball(table, S, limits.maxHops);
      |s.visited| == if |ball| <= limits.maxNodes then |ball| else limits.maxNodes
  }

  /** Unless a cap bites the nodes visited are exactly those that walks of at most the hop limit
      reach, with their distances, and every edge of those nearer than the limit is read. */
  ghost predicate ExactUnlessCapped(table: seq<Edge>, S: set<NodeId>, limits: Limits, s: Search, edges: seq<Edge>)
    requires ValidLimits(limits) && s.hop.Keys == s.visited
  {
    NoCapBites(table, S, limits, s, edges) ==>
      && AreWalkedTo(s.visited, table, S, limits.maxHops)
      && s.visited == Ball(table, S, limits.maxHops) && Shortest(table, S, s)
      && Elements(s.order) == Ball(table, S, limits.maxHops - 1) && edges == AllRows(table, s.order)
  }

  lemma FinishedFollowsDiscovery(table: seq<Edge>, starts: seq<NodeId>, limits: Limits, s: Search, edges: seq<Edge>,
                                 cut: bool, disc: seq<NodeId>)
    requires ValidLimits(limits) && Running(table, Elements(starts), limits, s, edges, cut)
    requires s.queue == [] || limits.maxNodes < |s.visited|
    requires Tracked(table, starts, limits, s, edges, disc) && |Elements(starts)| == |starts|
    ensures FollowsDiscovery(table, starts, limits, s, edges)
  {
    if |starts| <= limits.maxNodes && |edges| < limits.maxEdges {
      FinishedReadsAll(table, Elements(starts), limits, s, edges, cut);
    }
  }

  lemma FinishedUnlessCapped(table: seq<Edge>, S: set<NodeId>, limits: Limits, s: Search, edges: seq<Edge>, cut: bool)
    requires ValidLimits(limits) && Running(table, S, limits, s, edges, cut)
    requires s.queue == [] || limits.maxNodes < |s.visited|
    ensures FillsTheCap(table, S, limits, s) && ExactUnlessCapped(table, S, limits, s, edges)
  {
    if |S| <= limits.maxNodes && Demand(table, Ball(table, S, limits.maxHops - 1)) <= limits.maxEdges {
      FinishedFillsTheCap(table, S, limits, s, edges, cut);
    }
    if NoCapBites(table, S, limits, s, edges) {
      FinishedIsExact(table, S, limits, s, edges, cut);
      BallIsAllWalks(table, S, limits.maxHops);
    }
  }

  method Traverse(table: seq<Edge>, starts: seq<NodeId>, limits: Limits)
    returns (visited: set<NodeId>, trail: Trail, ghost s: Search)
    requires ValidLimits(limits)
    requires forall i, j :: 0 <= i < j < |starts| ==> starts[i] != starts[j]
    ensures Provenance(trail, limits) && |trail.documents| <= limits.maxDocuments
    ensures s.visited == visited && Inv(table, Elements(starts), limits, s)
    ensures WithinCaps(table, starts, limits, s, trail.edges)
    ensures FollowsDiscovery(table, starts, limits, s, trail.edges)
    ensures FillsTheCap(table, Elements(starts), limits, s)
    ensures ExactUnlessCapped(table, Elements(starts), limits, s, trail.edges)
  {
    ghost var S, cut, disc := Elements(starts), false, [];
    visited, trail, s, cut, disc := Explore(table, starts, limits);
    DistinctSize(starts);
    VisitedInBall(table, S, limits, s);
    FinishedFollowsDiscovery(table, starts, limits, s, trail.edges, cut, disc);
    FinishedUnlessCapped(table, S, limits, s, trail.edges, cut);
  }

  // ----- what an uncapped traversal has visited and read, in walks -----

  lemma {:induction false} AllRowsHold(table: seq<Edge>, order: seq<NodeId>, e: Edge)
    ensures e in AllRows(table, order) <==> e in table && (e.source in order || e.target in order)
  {
    if order != [] {
      AllRowsHold(table, order[..|order| - 1], e);
      assert order == order[..|order| - 1] + [order[|order| - 1]];
    }
  }

  /** A traversal that stayed below its caps has visited exactly the nodes that walks of at most the
      hop limit reach, ... */
  lemma VisitedIffWalkedTo(table: seq<Edge>, S: set<NodeId>, limits: Limits, s: Search, edges: seq<Edge>, x: NodeId)
    requires ValidLimits(limits) && s.hop.Keys == s.visited && ExactUnlessCapped(table, S, limits, s, edges)
    requires |s.visited| < limits.maxNodes && |edges| < limits.maxEdges
    ensures x in s.visited <==> exists w :: WalkBetween(table, S, w, x, limits.maxHops)
  {
    BallIsWalks(table, S, limits.maxHops, x);
  }

  /** ... has labelled none with more edges than a walk to it has, ... */
  lemma LabelledWithTheLeast(table: seq<Edge>, S: set<NodeId>, limits: Limits, s: Search, edges: seq<Edge>, x: NodeId,
                             w: seq<NodeId>, k: nat)
    requires ValidLimits(limits) && s.hop.Keys == s.visited && ExactUnlessCapped(table, S, limits, s, edges)
    requires |s.visited| < limits.maxNodes && |edges| < limits.maxEdges
    requires x in s.visited && WalkBetween(table, S, w, x, k)
    ensures s.hop[x] <= k
  {
    BallIsWalks(table, S, k, x);
  }

  /** ... and has read exactly the edges with an end that a shorter walk reaches. */
  lemma ReadIffNear(table: seq<Edge>, S: set<NodeId>, limits: Limits, s: Search, edges: seq<Edge>, e: Edge, n: nat)
    requires ValidLimits(limits) && s.hop.Keys == s.visited && ExactUnlessCapped(table, S, limits, s, edges)
    requires |s.visited| < limits.maxNodes && |edges| < limits.maxEdges
    requires n == limits.maxHops - 1
    ensures e in edges
       <==> e in table && ((exists w :: WalkBetween(table, S, w, e.source, n))
                           || exists w :: WalkBetween(table, S, w, e.target, n))
  {
    AllRowsHold(table, s.order, e);
    BallIsWalks(table, S, n, e.source);
    BallIsWalks(table, S, n, e.target);
    assert e.source in s.order <==> e.source in Elements(s.order);
    assert e.target in s.order <==> e.target in Elements(s.order);
  }

  // ----- start nodes: aliases found in the question -----

  datatype Alias = Alias(text: string, node: NodeId)

  datatype Span = Span(start: int, end: int)

  function FirstSpan(text: string, alias: Alias): (span: Span) {
    var i := Find(text, alias.text, 0, |text|);
    Span(i, i + |alias.text|)
  }

  predicate Occurs(text: string, alias: Alias) {
    0 <= FirstSpan(text, alias).start
  }

  predicate Overlap(a: Span, b: Span) {
    a.start < b.end && b.start < a.end
  }

  predicate Increasing(s: seq<nat>) {
    forall i, j :: 0 <= i < j < |s| ==> s[i] < s[j]
  }

  /** Row `j` gives way to an earlier winner: same node, or an overlapping first occurrence. */
  ghost predicate GivesWay(text: string, aliases: seq<Alias>, won: seq<nat>, j: nat)
    requires j < |aliases| && forall w :: w in won ==> w < |aliases|
  {
    exists w :: w in won && w < j
      && (aliases[w].node == aliases[j].node || Overlap(FirstSpan(text, aliases[j]), FirstSpan(text, aliases[w])))
  }

  /** The rows of `aliases[..n]` that a greedy pass with at most `cap` winners accepts: a row
      wins exactly when it occurs and gives way to no earlier winner. */
  ghost predicate GreedyWinners(text: string, aliases: seq<Alias>, cap: nat, won: seq<nat>, n: nat)
    requires n <= |aliases|
  {
    && Increasing(won) && |won| <= cap
    && (forall w :: w in won ==> w < n)
    && (forall w :: w in won ==> Occurs(text, aliases[w]) && !GivesWay(text, aliases, won, w))
    && forall j :: 0 <= j < n && j !in won ==>
         || !Occurs(text, aliases[j]) || GivesWay(text, aliases, won, j)
         || (|won| == cap && forall w :: w in won ==> w < j)
  }

  ghost predicate NodesOf(aliases: seq<Alias>, won: seq<nat>, matches: seq<NodeId>) {
    |matches| == |won| && forall i :: 0 <= i < |won| ==> won[i] < |aliases| && matches[i] == aliases[won[i]].node
  }

  ghost predicate SpansOf(text: string, aliases: seq<Alias>, won: seq<nat>, occupied: seq<Span>) {
    && |occupied| == |won|
    && forall i :: 0 <= i < |won| ==> won[i] < |aliases| && occupied[i] == FirstSpan(text, aliases[won[i]])
  }

  lemma WinnerAppend(text: string, aliases: seq<Alias>, cap: nat, won: seq<nat>, j: nat)
    requires j < |aliases| && GreedyWinners(text, aliases, cap, won, j)
    requires |won| < cap && Occurs(text, aliases[j]) && !GivesWay(text, aliases, won, j)
    ensures GreedyWinners(text, aliases, cap, won + [j], j + 1)
  {
    var more := won + [j];
    assert forall i :: 0 <= i < |won| ==> won[i] in won;
    forall w, k | w in more && k in more && w < k
      ensures !(aliases[w].node == aliases[k].node || Overlap(FirstSpan(text, aliases[k]), FirstSpan(text, aliases[w])))
    {
      assert w in won;
      if k in won {
        assert !GivesWay(text, aliases, won, k);
      }
    }
    forall k | 0 <= k < j && k !in more
      ensures !Occurs(text, aliases[k]) || GivesWay(text, aliases, more, k)
    {
      if Occurs(text, aliases[k]) {
        assert GivesWay(text, aliases, won, k);
        var w :| w in won && w < k
          && (aliases[w].node == aliases[k].node || Overlap(FirstSpan(text, aliases[k]), FirstSpan(text, aliases[w])));
        assert w in more;
      }
    }
  }

  lemma LoserStays(text: string, aliases: seq<Alias>, cap: nat, won: seq<nat>, j: nat)
    requires j < |aliases| && GreedyWinners(text, aliases, cap, won, j)
    requires !Occurs(text, aliases[j]) || GivesWay(text, aliases, won, j)
    ensures GreedyWinners(text, aliases, cap, won, j + 1)
  {
  }

  lemma CapReached(text: string, aliases: seq<Alias>, cap: nat, won: seq<nat>, j: nat)
    requires j <= |aliases| && GreedyWinners(text, aliases, cap, won, j) && |won| == cap
    ensures GreedyWinners(text, aliases, cap, won, |aliases|)
  {
  }

  lemma WinnersDiffer(text: string, aliases: seq<Alias>, cap: nat, won: seq<nat>, n: nat, matches: seq<NodeId>)
    requires n <= |aliases| && GreedyWinners(text, aliases, cap, won, n) && NodesOf(aliases, won, matches)
    ensures forall i, j :: 0 <= i < j < |matches| ==> matches[i] != matches[j]
  {
    forall i, j | 0 <= i < j < |matches| ensures matches[i] != matches[j] {
      assert won[i] in won && won[j] in won && won[i] < won[j];
      assert !GivesWay(text, aliases, won, won[j]);
    }
  }

  method ResolveEntities(text: string, aliases: seq<Alias>, maxStarts: nat)
    returns (matches: seq<NodeId>, ghost won: seq<nat>)
    requires 0 < maxStarts
    ensures GreedyWinners(text, aliases, maxStarts, won, |aliases|)
    ensures NodesOf(aliases, won, matches)
    ensures |matches| <= maxStarts
    ensures forall i, j :: 0 <= i < j < |matches| ==> matches[i] != matches[j]
  {
    matches, won := [], [];
    var occupied: seq<Span> := [];
    for j := 0 to |aliases|
      invariant GreedyWinners(text, aliases, maxStarts, won, j) && |won| < maxStarts
      invariant NodesOf(aliases, won, matches) && SpansOf(text, aliases, won, occupied)
    {
      var start := Find(text, aliases[j].text, 0, |text|);
      var span := Span(start, start + |aliases[j].text|);
      if start < 0 || (exists i :: 0 <= i < |occupied| && Overlap(span, occupied[i])) || aliases[j].node in matches {
        SomeoneStands(text, aliases, won, j, matches, occupied);
        LoserStays(text, aliases, maxStarts, won, j);
      } else {
        NoneGivesWay(text, aliases, won, j, matches, occupied);
        WinnerAppend(text, aliases, maxStarts, won, j);
        WinnerRecorded(text, aliases, won, j, matches, occupied);
        matches, won, occupied := matches + [aliases[j].node], won + [j], occupied + [span];
        if |matches| == maxStarts {
          CapReached(text, aliases, maxStarts, won, j + 1);
          break;
        }
      }
    }
    WinnersDiffer(text, aliases, maxStarts, won, |aliases|, matches);
  }

  lemma WinnerRecorded(text: string, aliases: seq<Alias>, won: seq<nat>, j: nat, matches: seq<NodeId>,
                       occupied: seq<Span>)
    requires j < |aliases| && NodesOf(aliases, won, matches) && SpansOf(text, aliases, won, occupied)
    ensures NodesOf(aliases, won + [j], matches + [aliases[j].node])
    ensures SpansOf(text, aliases, won + [j], occupied + [FirstSpan(text, aliases[j])])
  {
  }

  lemma SomeoneStands(text: string, aliases: seq<Alias>, won: seq<nat>, j: nat, matches: seq<NodeId>,
                      occupied: seq<Span>)
    requires j < |aliases| && NodesOf(aliases, won, matches) && SpansOf(text, aliases, won, occupied)
    requires forall w :: w in won ==> w < j
    requires || !Occurs(text, aliases[j]) || aliases[j].node in matches
             || exists i :: 0 <= i < |occupied| && Overlap(FirstSpan(text, aliases[j]), occupied[i])
    ensures !Occurs(text, aliases[j]) || GivesWay(text, aliases, won, j)
  {
    if Occurs(text, aliases[j]) {
      var i :| 0 <= i < |won| && (matches[i] == aliases[j].node || Overlap(FirstSpan(text, aliases[j]), occupied[i]));
      assert won[i] in won;
    }
  }

  lemma NoneGivesWay(text: string, aliases: seq<Alias>, won: seq<nat>, j: nat, matches: seq<NodeId>,
                     occupied: seq<Span>)
    requires j < |aliases| && NodesOf(aliases, won, matches) && SpansOf(text, aliases, won, occupied)
    requires forall w :: w in won ==> w < |aliases|
    requires aliases[j].node !in matches
    requires forall i :: 0 <= i < |occupied| ==> !Overlap(FirstSpan(text, aliases[j]), occupied[i])
    ensures !GivesWay(text, aliases, won, j)
  {
    forall w | w in won
      ensures aliases[w].node != aliases[j].node && !Overlap(FirstSpan(text, aliases[j]), FirstSpan(text, aliases[w]))
    {
      var i :| 0 <= i < |won| && won[i] == w;
      assert matches[i] == aliases[w].node;
      assert occupied[i] == FirstSpan(text, aliases[w]);
    }
  }

  // ----- the same, said of the characters of the question -----

  /** The question reads `pattern` from `i` on. */
  predicate ReadsAt(text: string, pattern: string, i: int) {
    0 <= i && i + |pattern| <= |text| && forall k :: 0 <= k < |pattern| ==> text[i + k] == pattern[k]
  }

  lemma ReadsIff(text: string, pattern: string, i: int)
    ensures MatchAt(text, pattern, i) <==> ReadsAt(text, pattern, i)
  {
    if ReadsAt(text, pattern, i) {
      assert text[i..i + |pattern|] == pattern;
    }
    if MatchAt(text, pattern, i) {
      forall k | 0 <= k < |pattern| ensures text[i + k] == pattern[k] {
        assert text[i..i + |pattern|][k] == text[i + k];
      }
    }
  }

  /** The question reads the alias first at `i`. */
  ghost predicate FirstAt(text: string, pattern: string, i: int) {
    ReadsAt(text, pattern, i) && forall k :: ReadsAt(text, pattern, k) ==> i <= k
  }

  /** The character at `c` belongs to the alias where it is first read. */
  ghost predicate Occupies(text: string, alias: Alias, c: int) {
    exists i :: FirstAt(text, alias.text, i) && i <= c < i + |alias.text|
  }

  lemma FirstSpanIsFirst(text: string, alias: Alias)
    ensures Occurs(text, alias) <==> exists i :: ReadsAt(text, alias.text, i)
    ensures Occurs(text, alias) ==> FirstAt(text, alias.text, FirstSpan(text, alias).start)
    ensures FirstSpan(text, alias).end == FirstSpan(text, alias).start + |alias.text|
  {
    forall i ensures MatchAt(text, alias.text, i) <==> ReadsAt(text, alias.text, i) {
      ReadsIff(text, alias.text, i);
    }
    if i :| ReadsAt(text, alias.text, i) {
      assert MatchAt(text, alias.text, i);
    }
  }

  lemma OccupiesIff(text: string, alias: Alias, c: int)
    requires Occurs(text, alias)
    ensures Occupies(text, alias, c) <==> FirstSpan(text, alias).start <= c < FirstSpan(text, alias).end
  {
    FirstSpanIsFirst(text, alias);
    if Occupies(text, alias, c) {
      var i :| FirstAt(text, alias.text, i) && i <= c < i + |alias.text|;
      assert i == FirstSpan(text, alias).start;
    }
  }

  /** Two aliases compete for a character. */
  ghost predicate Share(text: string, a: Alias, b: Alias) {
    exists c :: Occupies(text, a, c) && Occupies(text, b, c)
  }

  /** First occurrences overlap exactly when they share a character. */
  lemma OverlapIffShared(text: string, a: Alias, b: Alias)
    requires Occurs(text, a) && Occurs(text, b)
    ensures Overlap(FirstSpan(text, a), FirstSpan(text, b)) <==> Share(text, a, b)
  {
    var x, y := FirstSpan(text, a), FirstSpan(text, b);
    if Overlap(x, y) {
      var c := if x.start < y.start then y.start else x.start;
      FirstSpanIsFirst(text, a);
      FirstSpanIsFirst(text, b);
      EmptyIsFirst(text, a);
      EmptyIsFirst(text, b);
      OccupiesIff(text, a, c);
      OccupiesIff(text, b, c);
    }
    if Share(text, a, b) {
      var c :| Occupies(text, a, c) && Occupies(text, b, c);
      OccupiesIff(text, a, c);
      OccupiesIff(text, b, c);
    }
  }

  lemma EmptyIsFirst(text: string, alias: Alias)
    ensures alias.text == "" ==> FirstSpan(text, alias) == Span(0, 0)
  {
  }

  /** Which aliases win: with room left, a row wins exactly when the question reads its alias and
      no earlier winner has its node or shares a character with it. */
  lemma WinsIff(text: string, aliases: seq<Alias>, cap: nat, won: seq<nat>, j: nat)
    requires GreedyWinners(text, aliases, cap, won, |aliases|) && j < |aliases| && |won| < cap
    ensures j in won
       <==> (exists i :: ReadsAt(text, aliases[j].text, i))
            && forall w :: w in won && w < j ==>
                 aliases[w].node != aliases[j].node && !Share(text, aliases[w], aliases[j])
  {
    FirstSpanIsFirst(text, aliases[j]);
    if Occurs(text, aliases[j]) {
      forall w | w in won
        ensures Overlap(FirstSpan(text, aliases[j]), FirstSpan(text, aliases[w]))
           <==> Share(text, aliases[w], aliases[j])
      {
        OverlapIffShared(text, aliases[w], aliases[j]);
      }
      assert j in won <==> !GivesWay(text, aliases, won, j);
    }
  }

  /** Aliases come longest first, so an alias that loses its place loses it to one at least
      as long; and no two accepted occurrences share a character. */
  lemma LongestAliasWins(text: string, aliases: seq<Alias>, cap: nat, won: seq<nat>, j: nat)
    requires GreedyWinners(text, aliases, cap, won, |aliases|)
    requires forall i, k :: 0 <= i < k < |aliases| ==> |aliases[k].text| <= |aliases[i].text|
    requires j < |aliases| && Occurs(text, aliases[j]) && j !in won && |won| < cap
    ensures exists w :: w in won && |aliases[j].text| <= |aliases[w].text|
              && (aliases[w].node == aliases[j].node || Share(text, aliases[w], aliases[j]))
    ensures forall v, w :: v in won && w in won && v != w ==> !Share(text, aliases[v], aliases[w])
  {
    FirstSpanIsFirst(text, aliases[j]);
    WinsIff(text, aliases, cap, won, j);
    forall v, w | v in won && w in won && v < w
      ensures !Share(text, aliases[v], aliases[w]) && !Share(text, aliases[w], aliases[v])
    {
      WinsIff(text, aliases, cap, won, w);
    }
  }

  /** The traversal of `retrieve`: from the entities named in the question; without one,
      nothing is read. */
  method TraverseFromQuestion(text: string, aliases: seq<Alias>, maxStarts: nat, table: seq<Edge>, limits: Limits)
    returns (starts: seq<NodeId>, visited: set<NodeId>, trail: Trail, ghost won: seq<nat>, ghost s: Search)
    requires 0 < maxStarts && ValidLimits(limits)
    ensures GreedyWinners(text, aliases, maxStarts, won, |aliases|) && NodesOf(aliases, won, starts)
    ensures (exists j, i :: 0 <= j < |aliases| && ReadsAt(text, aliases[j].text, i)) <==> starts != []
    ensures starts == [] ==> visited == {} && trail == Trail([], [], [], [])
    ensures starts != [] ==>
      && Provenance(trail, limits) && |trail.documents| <= limits.maxDocuments
      && s.visited == visited && Inv(table, Elements(starts), limits, s)
      && WithinCaps(table, starts, limits, s, trail.edges)
      && FollowsDiscovery(table, starts, limits, s, trail.edges)
      && FillsTheCap(table, Elements(starts), limits, s)
      && ExactUnlessCapped(table, Elements(starts), limits, s, trail.edges)
  {
    starts, won := ResolveEntities(text, aliases, maxStarts);
    SomeoneStarts(text, aliases, maxStarts, won);
    if starts == [] {
      visited, trail, s := {}, Trail([], [], [], []), Search({}, map[], [], []);
      return;
    }
    visited, trail, s := Traverse(table, starts, limits);
  }

  /** The first alias that occurs wins. */
  lemma SomeoneStarts(text: string, aliases: seq<Alias>, cap: nat, won: seq<nat>)
    requires 0 < cap && GreedyWinners(text, aliases, cap, won, |aliases|)
    ensures won != [] <==> exists j, i :: 0 <= j < |aliases| && ReadsAt(text, aliases[j].text, i)
  {
    forall j | 0 <= j < |aliases| ensures Occurs(text, aliases[j]) <==> exists i :: ReadsAt(text, aliases[j].text, i) {
      FirstSpanIsFirst(text, aliases[j]);
    }
    if won != [] {
      assert won[0] in won;
    } else {
      assert forall j :: 0 <= j < |aliases| ==> !Occurs(text, aliases[j]);
    }
  }
}
