/**
  The difference of two instance graphs, in the four parts that a modification reports: nodes that
  were added or removed, and relationships that were added or removed between nodes that stay.
*/
module GraphDiff {
  import opened Names

  datatype Mark = Added | Removed | Extended | Reduced

  /** A node of a diffed graph, with the modification that its attributes have been marked with, if any. */
  datatype Digraph = Digraph(nodes: map<Id, Option<Mark>>, edges: set<(Id, Id)>)

  ghost predicate Closed(g: Digraph) {
    forall e :: e in g.edges ==> e.0 in g.nodes && e.1 in g.nodes
  }

  predicate Incident(e: (Id, Id), n: Id) {
    e.0 == n || e.1 == n
  }

  /** Marks the given nodes. */
  function Marked(nodes: map<Id, Option<Mark>>, which: set<Id>, mark: Mark): (r: map<Id, Option<Mark>>)
    ensures r.Keys == nodes.Keys
    ensures forall n :: n in nodes ==> r[n] == if n in which then Some(mark) else nodes[n]
  {
    map n | n in nodes :: if n in which then Some(mark) else nodes[n]
  }

  /** The nodes of `g` that `h` does not have. */
  function Missing(g: Digraph, h: Digraph): set<Id> {
    g.nodes.Keys - h.nodes.Keys
  }

  /** The edges of `g` that touch a node that `h` does not have. */
  ghost function Touching(g: Digraph, h: Digraph): set<(Id, Id)> {
    set e | e in g.edges && (e.0 !in h.nodes || e.1 !in h.nodes)
  }

  /** The edges of `g` that `h` does not have although it has their source. */
  ghost function Loose(g: Digraph, h: Digraph): set<(Id, Id)> {
    set e | e in g.edges && e.0 in h.nodes && e !in h.edges
  }

  ghost function Ends(edges: set<(Id, Id)>): set<Id> {
    (set e | e in edges :: e.0) + (set e | e in edges :: e.1)
  }

  lemma EndsJoin(a: set<(Id, Id)>, b: set<(Id, Id)>)
    ensures Ends(a + b) == Ends(a) + Ends(b)
  {
  }

  function EdgesAt(g: Digraph, n: Id): set<(Id, Id)> {
    set e | e in g.edges && Incident(e, n)
  }

  ghost function EdgesAtAny(g: Digraph, ns: set<Id>): set<(Id, Id)> {
    set e | e in g.edges && (e.0 in ns || e.1 in ns)
  }

  lemma EdgesAtStep(g: Digraph, ns: set<Id>, n: Id)
    ensures EdgesAtAny(g, ns + {n}) == EdgesAtAny(g, ns) + EdgesAt(g, n)
  {
  }

  lemma MarkedStep(nodes: map<Id, Option<Mark>>, which: set<Id>, mark: Mark, n: Id)
    requires n in nodes
    ensures Marked(nodes, which, mark)[n := Some(mark)] == Marked(nodes, which + {n}, mark)
  {
  }

  function EndsOf(edges: set<(Id, Id)>): (r: set<Id>)
    ensures r == Ends(edges)
  {
    (set e | e in edges :: e.0) + (set e | e in edges :: e.1)
  }

  lemma GraphDiffStep(g: Digraph, done: set<Id>, n: Id, edges: set<(Id, Id)>, nodes: set<Id>)
    requires edges == EdgesAtAny(g, done) && nodes == done + Ends(edges)
    ensures edges + EdgesAt(g, n) == EdgesAtAny(g, done + {n})
    ensures nodes + {n} + EndsOf(EdgesAt(g, n)) == (done + {n}) + Ends(edges + EdgesAt(g, n))
  {
    EdgesAtStep(g, done, n);
    EndsJoin(edges, EdgesAt(g, n));
  }

  lemma MissingStep(g: Digraph, h: Digraph, todo: set<Id>, n: Id)
    requires n in todo && todo <= g.nodes.Keys
    ensures Missing(g, h) - (todo - {n}) == Missing(g, h) - todo + (if n in h.nodes then {} else {n})
  {
  }

  lemma GraphDiffDone(g: Digraph, h: Digraph)
    ensures EdgesAtAny(g, Missing(g, h)) <= Touching(g, h)
    ensures Closed(g) ==> EdgesAtAny(g, Missing(g, h)) == Touching(g, h) && Ends(Touching(g, h)) <= g.nodes.Keys
  {
  }

  /**
    The nodes of `g` that `h` does not have, marked, with their edges and the nodes at the other ends.
    The attributes of a node in the result are those of `g` itself, so the marks show up in `g` too.
  */
  method GraphDiff(g: Digraph, h: Digraph, mark: Mark) returns (result: Digraph, g': Digraph)
    requires Closed(g)
    ensures g' == Digraph(Marked(g.nodes, Missing(g, h), mark), g.edges)
    ensures result.nodes.Keys == Missing(g, h) + Ends(Touching(g, h))
    ensures forall n :: n in result.nodes ==> n in g'.nodes && result.nodes[n] == g'.nodes[n]
    ensures result.edges == Touching(g, h)
  {
    ghost var done: set<Id> := {};
    var nodes: set<Id> := {};
    var edges: set<(Id, Id)> := {};
    g' := g;
    assert Marked(g.nodes, {}, mark) == g.nodes;
    var todo := g.nodes.Keys;
    while todo != {}
      invariant todo <= g.nodes.Keys && done == Missing(g, h) - todo
      invariant g' == Digraph(Marked(g.nodes, done, mark), g.edges)
      invariant edges == EdgesAtAny(g, done) && nodes == done + Ends(edges)
      decreases todo
    {
      var n :| n in todo;
      if n !in h.nodes {
        MarkedStep(g.nodes, done, mark, n);
        GraphDiffStep(g, done, n, edges, nodes);
        g' := Digraph(g'.nodes[n := Some(mark)], g'.edges);
        nodes := nodes + {n} + EndsOf(EdgesAt(g, n));
        edges := edges + EdgesAt(g, n);
        done := done + {n};
      }
      MissingStep(g, h, todo, n);
      todo := todo - {n};
    }
    assert done == Missing(g, h);
    GraphDiffDone(g, h);
    result := Digraph(map n | n in nodes :: g'.nodes[n], edges);
  }

  ghost function Sources(edges: set<(Id, Id)>): set<Id> {
    set e | e in edges :: e.0
  }

  /** Nodes that both graphs have carry no mark yet. */
  ghost predicate UnmarkedIn(g: Digraph, h: Digraph) {
    forall n :: n in g.nodes && n in h.nodes ==> g.nodes[n].None?
  }

  /** The result for the edges in `done`: sources marked, other ends as they are in `g`. */
  ghost predicate Diffed(g: Digraph, nodes: map<Id, Option<Mark>>, done: set<(Id, Id)>, mark: Mark) {
    && nodes.Keys == Ends(done) <= g.nodes.Keys
    && forall n :: n in nodes ==> nodes[n] == if n in Sources(done) then Some(mark) else g.nodes[n]
  }

  /** `g` itself may have picked up the mark, but only on those sources. */
  ghost predicate LeaksOnly(g: Digraph, now: map<Id, Option<Mark>>, done: set<(Id, Id)>, mark: Mark) {
    && now.Keys == g.nodes.Keys
    && forall n :: n in now ==> now[n] == g.nodes[n] || (n in Sources(done) && now[n] == Some(mark))
  }

  /** The source of an edge gets the mark, in the result and, if it is shared, in `g`. */
  lemma SourceMarked(g: Digraph, now: map<Id, Option<Mark>>, now': map<Id, Option<Mark>>, done: set<(Id, Id)>,
                     e: (Id, Id), mark: Mark)
    requires e.0 in g.nodes && LeaksOnly(g, now, done, mark)
    requires now' == now || now' == now[e.0 := Some(mark)]
    ensures LeaksOnly(g, now', done + {e}, mark)
  {
    assert Sources(done + {e}) == Sources(done) + {e.0};
  }

  /** The other end keeps its attributes, unless it is a source as well. */
  lemma EndsMarked(g: Digraph, h: Digraph, nodes: map<Id, Option<Mark>>, nodes': map<Id, Option<Mark>>,
                   now: map<Id, Option<Mark>>, done: set<(Id, Id)>, e: (Id, Id), mark: Mark)
    requires Closed(g) && UnmarkedIn(g, h) && e in g.edges && e.0 in h.nodes
    requires forall s :: s in Sources(done) ==> s in h.nodes
    requires Diffed(g, nodes, done, mark) && LeaksOnly(g, now, done + {e}, mark)
    requires var m := nodes[e.0 := Some(mark)];
             nodes' == if e.1 !in m || now[e.1].Some? then m[e.1 := now[e.1]] else m
    ensures Diffed(g, nodes', done + {e}, mark)
  {
    OneMoreEdge(done, e);
  }

  lemma OneMoreEdge(done: set<(Id, Id)>, e: (Id, Id))
    ensures Ends(done + {e}) == Ends(done) + {e.0, e.1}
    ensures Sources(done + {e}) == Sources(done) + {e.0}
    ensures Sources(done) <= Ends(done)
  {
    EndsJoin(done, {e});
  }

  /**
    One edge. `shared` are the nodes of the result whose attributes are those of `g` itself; a source
    that is not in the result yet gets a copy.
  */
  method AddLooseEdge(ghost g: Digraph, ghost h: Digraph, nodes: map<Id, Option<Mark>>, now: map<Id, Option<Mark>>,
                      shared: set<Id>, e: (Id, Id), mark: Mark, ghost done: set<(Id, Id)>)
    returns (nodes': map<Id, Option<Mark>>, now': map<Id, Option<Mark>>, shared': set<Id>)
    requires Closed(g) && UnmarkedIn(g, h) && e in g.edges && e.0 in h.nodes
    requires forall s :: s in Sources(done) ==> s in h.nodes
    requires Diffed(g, nodes, done, mark) && LeaksOnly(g, now, done, mark)
    ensures Diffed(g, nodes', done + {e}, mark) && LeaksOnly(g, now', done + {e}, mark)
  {
    now' := if e.0 in nodes && e.0 in shared then now[e.0 := Some(mark)] else now;
    SourceMarked(g, now, now', done, e, mark);
    nodes' := nodes[e.0 := Some(mark)];
    shared' := shared;
    if e.1 !in nodes' {
      nodes' := nodes'[e.1 := now'[e.1]];
      shared' := shared + {e.1};
    } else if now'[e.1].Some? {
      nodes' := nodes'[e.1 := now'[e.1]];
    }
    EndsMarked(g, h, nodes, nodes', now', done, e, mark);
  }

  /** The edges of `g` that `h` does not have between nodes whose source stays, with the source marked. */
  method GraphDiffRelationships(g: Digraph, h: Digraph, mark: Mark) returns (result: Digraph, g': Digraph)
    requires Closed(g) && UnmarkedIn(g, h)
    ensures result.edges == Loose(g, h) && result.nodes.Keys == Ends(Loose(g, h))
    ensures Diffed(g, result.nodes, Loose(g, h), mark)
    ensures g'.edges == g.edges && LeaksOnly(g, g'.nodes, Loose(g, h), mark)
  {
    var nodes: map<Id, Option<Mark>> := map[];
    var now := g.nodes;
    var shared: set<Id> := {};
    var done: set<(Id, Id)> := {};
    var todo := g.edges;
    while todo != {}
      invariant todo <= g.edges && done == Loose(g, h) - todo
      invariant Diffed(g, nodes, done, mark) && LeaksOnly(g, now, done, mark)
      decreases todo
    {
      var e :| e in todo;
      if e.0 in h.nodes && e !in h.edges {
        nodes, now, shared := AddLooseEdge(g, h, nodes, now, shared, e, mark, done);
        done := done + {e};
      }
      todo := todo - {e};
    }
    assert done == Loose(g, h);
    result := Digraph(nodes, done);
    g' := Digraph(now, g.edges);
  }

  /** The four parts of the answer to a modification. */
  datatype Report = Report(added: Digraph, removed: Digraph, extended: Digraph, reduced: Digraph)

  /** The ids to keep: those that the other part did not mark. */
  function FilterOut(out: map<Id, Option<Mark>>, base: map<Id, Option<Mark>>): (r: map<Id, Option<Mark>>)
    ensures forall n :: n in r <==> n in base && !(n in out && out[n].Some?)
    ensures forall n :: n in r ==> r[n] == base[n]
  {
    map n | n in base && !(n in out && out[n].Some?) :: base[n]
  }

  ghost predicate Unmarked(g: Digraph) {
    Closed(g) && forall n :: n in g.nodes ==> g.nodes[n].None?
  }

  /** The ids that a part marks. */
  ghost function Changed(g: Digraph): set<Id> {
    set n | n in g.nodes && g.nodes[n].Some?
  }

  /** Deleting what was removed, then adding what was added. */
  ghost function PatchedNodes(previous: Digraph, r: Report): set<Id> {
    previous.nodes.Keys - Changed(r.removed) + Changed(r.added)
  }

  ghost function PatchedEdges(previous: Digraph, r: Report): set<(Id, Id)> {
    previous.edges - r.removed.edges - r.reduced.edges + r.added.edges + r.extended.edges
  }

  /**
    Added is exactly new minus previous, removed exactly previous minus new; what stays is marked for
    its relationships.
  */
  ghost predicate ExactMarks(previous: Digraph, next: Digraph, r: Report) {
    && (forall n :: n in r.added.nodes ==> r.added.nodes[n] == if n in previous.nodes then None else Some(Added))
    && (forall n :: n in r.removed.nodes ==> r.removed.nodes[n] == if n in next.nodes then None else Some(Removed))
    && Changed(r.added) == next.nodes.Keys - previous.nodes.Keys
    && Changed(r.removed) == previous.nodes.Keys - next.nodes.Keys
    && (forall n :: n in r.extended.nodes ==>
      r.extended.nodes[n] == if n in Sources(r.extended.edges) then Some(Extended) else None)
    && (forall n :: n in r.reduced.nodes ==>
      r.reduced.nodes[n] == if n in Sources(r.reduced.edges) then Some(Reduced) else None)
    && Sources(r.extended.edges) <= r.extended.nodes.Keys
    && Sources(r.reduced.edges) <= r.reduced.nodes.Keys
  }

  /** Each part has the edges that it should have. */
  ghost predicate ExactEdges(previous: Digraph, next: Digraph, r: Report) {
    && r.added.edges == Touching(next, previous) && r.extended.edges == Loose(next, previous)
    && r.removed.edges == Touching(previous, next) && r.reduced.edges == Loose(previous, next)
  }

  /** The nodes of the two parts that show what `g` has and `h` has not, before any are filtered out. */
  ghost function PartNodes(g: Digraph, h: Digraph): set<Id> {
    Missing(g, h) + Ends(Touching(g, h)) + Ends(Loose(g, h))
  }

  lemma InEnds(edges: set<(Id, Id)>, n: Id)
    ensures n in Ends(edges) <==> exists e :: e in edges && Incident(e, n)
  {
  }

  /** Besides what is missing in `h`, they are the ends of the edges that `h` has not. */
  lemma PartNodesAre(g: Digraph, h: Digraph)
    requires Closed(g) && Closed(h)
    ensures PartNodes(g, h) == Missing(g, h) + Ends(g.edges - h.edges)
  {
    EndsJoin(Touching(g, h), Loose(g, h));
    assert Touching(g, h) + Loose(g, h) == g.edges - h.edges;
  }

  /** The edges of the four parts turn the previous edges into the new ones. */
  lemma EdgesPatch(previous: Digraph, next: Digraph)
    requires Closed(previous) && Closed(next)
    ensures previous.edges - Touching(previous, next) - Loose(previous, next) + Touching(next, previous) +
      Loose(next, previous)
            == next.edges
  {
  }

  /** The marks of the added and removed parts are exact. */
  lemma NodeMarks(g: Digraph, h: Digraph, mark: Mark, nodes: map<Id, Option<Mark>>)
    requires Unmarked(g)
    requires nodes.Keys == Missing(g, h) + Ends(Touching(g, h))
    requires forall n :: n in nodes ==> n in g.nodes && nodes[n] == Marked(g.nodes, Missing(g, h), mark)[n]
    ensures forall n :: n in nodes ==> nodes[n] == if n in h.nodes then None else Some(mark)
    ensures (set n | n in nodes && nodes[n].Some?) == g.nodes.Keys - h.nodes.Keys
  {
  }

  /** No source of an added or removed relationship is filtered out, and what is left carries its own mark only. */
  lemma FilterKeepsSources(g: Digraph, h: Digraph, out: map<Id, Option<Mark>>, base: map<Id, Option<Mark>>, mark: Mark,
                           edges: set<(Id, Id)>, marked: Digraph)
    requires Unmarked(g) && edges == Loose(g, h) && marked.nodes.Keys == g.nodes.Keys && Closed(g)
    requires forall n :: n in g.nodes && n in h.nodes ==> marked.nodes[n].None?
    requires forall n :: n in g.nodes && n !in h.nodes ==> n in Missing(g, h) && marked.nodes[n].Some?
    requires forall n :: n in g.nodes && n !in h.nodes ==> n in out && out[n].Some?
    requires forall n :: n in out && out[n].Some? ==> n !in h.nodes
    requires Diffed(marked, base, edges, mark)
    ensures Sources(edges) <= FilterOut(out, base).Keys
    ensures forall n :: n in FilterOut(out, base) ==>
      FilterOut(out, base)[n] == if n in Sources(edges) then Some(mark) else None
  {
    assert forall n :: n in Sources(edges) ==> n in h.nodes && n in Ends(edges);
  }

  /** The nodes that `h` lacks, marked in their part and, as a side effect, in the graph itself. */
  ghost predicate NodesPart(g: Digraph, h: Digraph, mark: Mark, part: Digraph, g': Digraph) {
    && g' == Digraph(Marked(g.nodes, Missing(g, h), mark), g.edges)
    && part.edges == Touching(g, h) && Missing(g, h) <= part.nodes.Keys
    && (forall n :: n in part.nodes ==> part.nodes[n] == if n in h.nodes then None else Some(mark))
    && Changed(part) == g.nodes.Keys - h.nodes.Keys
  }

  /** The relationships that `h` lacks, each with its source marked, and no node that was itself added or removed. */
  ghost predicate RelationshipsPart(g: Digraph, h: Digraph, mark: Mark, part: Digraph) {
    && part.edges == Loose(g, h) && Sources(part.edges) <= part.nodes.Keys
    && (forall n :: n in part.nodes ==> part.nodes[n] == if n in Sources(part.edges) then Some(mark) else None)
  }

  method DiffNodes(g: Digraph, h: Digraph, mark: Mark) returns (part: Digraph, g': Digraph)
    requires Unmarked(g)
    ensures NodesPart(g, h, mark, part, g')
  {
    part, g' := GraphDiff(g, h, mark);
    NodeMarks(g, h, mark, part.nodes);
  }

  method DiffRelationships(ghost g: Digraph, ghost h: Digraph, g': Digraph, h': Digraph, nodesPart: Digraph, mark: Mark,
                           ghost nodesMark: Mark)
    returns (part: Digraph, g'': Digraph)
    requires Unmarked(g) && NodesPart(g, h, nodesMark, nodesPart, g')
    requires h'.nodes.Keys == h.nodes.Keys && h'.edges == h.edges
    ensures RelationshipsPart(g, h, mark, part)
    ensures g''.nodes.Keys == g.nodes.Keys && g''.edges == g.edges
  {
    part, g'' := GraphDiffRelationships(g', h', mark);
    assert Loose(g', h') == Loose(g, h);
    FilterKeepsSources(g, h, nodesPart.nodes, part.nodes, mark, part.edges, g');
    part := part.(nodes := FilterOut(nodesPart.nodes, part.nodes));
  }

  /** What changed between the previous and the new instance graph. */
  method ModifyDeployment(previous: Digraph, next: Digraph) returns (r: Report)
    requires Unmarked(previous) && Unmarked(next)
    ensures ExactMarks(previous, next, r) && ExactEdges(previous, next, r)
    ensures PatchedNodes(previous, r) == next.nodes.Keys
    ensures PatchedEdges(previous, r) == next.edges
  {
    var added, next1 := DiffNodes(next, previous, Added);
    var removed, previous1 := DiffNodes(previous, next, Removed);
    var extended, next2 := DiffRelationships(next, previous, next1, previous1, added, Extended, Added);
    var reduced, previous2 := DiffRelationships(previous, next, previous1, next2, removed, Reduced, Removed);
    r := Report(added, removed, extended, reduced);
    EdgesPatch(previous, next);
  }
}
