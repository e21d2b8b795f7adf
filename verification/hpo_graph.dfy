/**
 * The ancestor test of src/main/python/hpoutil.py. The HPO ontology is a
 * directed graph whose edges lead from a term to its parents (its
 * successors); a term is an ancestor of another when it can be reached from
 * it along one or more edges.
 *
 * The graph is a map from each term to the sequence of its successors.
 * Reading it from an OBO file is not part of this model.
 */
module HpoUtil {
  import opened Wrappers

  /** An HPO term id such as "HP:0001166". */
  type Term = string

  /** Each node of the graph with its successors, in the order the graph lists them. */
  type Graph = map<Term, seq<Term>>

  /** networkx raises when asked for the successors of a node it does not hold. */
  datatype GraphError = NodeNotInGraph(node: Term)

  /** Every successor is itself a node of the graph. */
  predicate Closed(g: Graph) {
    forall n, m :: n in g && m in g[n] ==> m in g
  }

  /** rank drops along every edge, so the graph has no cycle. */
  predicate Ranked(g: Graph, rank: map<Term, nat>) {
    && (forall n :: n in g ==> n in rank)
    && (forall n, m :: n in g && m in g[n] && m in rank ==> rank[m] < rank[n])
  }

  /** p follows successor edges and has at least one edge. */
  ghost predicate IsPath(g: Graph, p: seq<Term>) {
    |p| >= 2 && forall i :: 0 <= i < |p| - 1 ==> p[i] in g && p[i + 1] in g[p[i]]
  }

  /** `to` can be reached from `from` along one or more edges. */
  ghost predicate Reaches(g: Graph, from: Term, to: Term) {
    exists p :: IsPath(g, p) && p[0] == from && p[|p| - 1] == to
  }

  /** A single edge is a path. */
  lemma EdgeReaches(g: Graph, n: Term, m: Term)
    requires n in g && m in g[n]
    ensures Reaches(g, n, m)
  {
    var p := [n, m];
    assert IsPath(g, p);
  }

  /** An edge followed by a path is a path. */
  lemma ExtendReaches(g: Graph, n: Term, m: Term, to: Term)
    requires n in g && m in g[n] && Reaches(g, m, to)
    ensures Reaches(g, n, to)
  {
    var p :| IsPath(g, p) && p[0] == m && p[|p| - 1] == to;
    var q := [n] + p;
    assert forall i :: 1 <= i < |q| - 1 ==> q[i] == p[i - 1] && q[i + 1] == p[i];
    assert IsPath(g, q);
  }

  /** A path of more than one edge continues from the second node. */
  lemma TailPath(g: Graph, p: seq<Term>)
    requires IsPath(g, p) && |p| > 2
    ensures IsPath(g, p[1..])
  {
    var t := p[1..];
    forall i | 0 <= i < |t| - 1 ensures t[i] in g && t[i + 1] in g[t[i]] {
      assert t[i] == p[i + 1] && t[i + 1] == p[i + 2];
    }
  }

  /** In a closed graph, only nodes of the graph can be reached. */
  lemma ReachesNode(g: Graph, from: Term, to: Term)
    requires Closed(g) && Reaches(g, from, to)
    ensures to in g
  {
    var p :| IsPath(g, p) && p[0] == from && p[|p| - 1] == to;
    var i := |p| - 2;
    assert p[i] in g && p[i + 1] in g[p[i]];
  }

  /** A term without successors is below no term. */
  lemma NoSuccessorsNoAncestors(g: Graph, n: Term, a: Term)
    requires n in g && g[n] == []
    ensures !Reaches(g, n, a)
  {
    forall p | IsPath(g, p) ensures p[0] != n {
      assert p[1] in g[p[0]];
    }
  }

  /**
   * ancestor_descendent(graph, ancestor, descendent): the successors of
   * `descendent` are scanned for `ancestor`, and then each of them is
   * searched in turn. On an acyclic graph the answer is whether `ancestor`
   * can be reached from `descendent`.
   */
  method AncestorDescendent(g: Graph, ghost rank: map<Term, nat>, ancestor: Term, descendent: Term)
    returns (r: Result<bool, GraphError>)
    requires Closed(g) && Ranked(g, rank)
    ensures descendent !in g ==> r == Err(NodeNotInGraph(descendent))
    ensures descendent in g ==> r.Ok? && (r.value <==> Reaches(g, descendent, ancestor))
    decreases if descendent in rank then rank[descendent] else 0
  {
    if descendent !in g {
      return Err(NodeNotInGraph(descendent));
    }
    var successors := g[descendent];
    var parents: seq<Term> := [];
    for i := 0 to |successors|
      invariant parents == successors[..i]
      invariant forall j :: 0 <= j < i ==> successors[j] != ancestor
    {
      var node := successors[i];
      if node == ancestor {
        EdgeReaches(g, descendent, node);
        return Ok(true);
      }
      parents := parents + [node];
    }
    assert parents == successors;
    for i := 0 to |parents|
      invariant forall j :: 0 <= j < i ==> !Reaches(g, parents[j], ancestor)
    {
      var parent := parents[i];
      assert parent in g[descendent];
      var found := AncestorDescendent(g, rank, ancestor, parent);
      if found.value {
        ExtendReaches(g, descendent, parent, ancestor);
        return Ok(true);
      }
    }
    forall p | IsPath(g, p) && p[0] == descendent ensures p[|p| - 1] != ancestor {
      var j :| 0 <= j < |parents| && parents[j] == p[1];
      if |p| > 2 {
        TailPath(g, p);
        assert p[1..][0] == parents[j];
      }
    }
    return Ok(false);
  }

  /** HPO: the ontology graph, which has no cycle. */
  class Hpo {
    const graph: Graph
    ghost const rank: map<Term, nat>

    constructor (graph: Graph, ghost rank: map<Term, nat>)
      requires Closed(graph) && Ranked(graph, rank)
      ensures this.graph == graph && this.rank == rank
    {
      this.graph := graph;
      this.rank := rank;
    }

    ghost predicate Valid() {
      Closed(graph) && Ranked(graph, rank)
    }

    /** is_ancestor_descendent(termid1, termid2): termid1 can be reached from termid2. */
    method IsAncestorDescendent(termid1: Term, termid2: Term) returns (r: Result<bool, GraphError>)
      requires Valid()
      ensures termid2 !in graph ==> r == Err(NodeNotInGraph(termid2))
      ensures termid2 in graph ==> r.Ok? && (r.value <==> Reaches(graph, termid2, termid1))
    {
      r := AncestorDescendent(graph, rank, termid1, termid2);
    }

    /** is_descendent_ancestor(termid1, termid2): the same test with the two terms swapped. */
    method IsDescendentAncestor(termid1: Term, termid2: Term) returns (r: Result<bool, GraphError>)
      requires Valid()
      ensures termid1 !in graph ==> r == Err(NodeNotInGraph(termid1))
      ensures termid1 in graph ==> r.Ok? && (r.value <==> Reaches(graph, termid1, termid2))
    {
      r := AncestorDescendent(graph, rank, termid2, termid1);
    }

    /**
     * has_dependency: one term is an ancestor of the other. The answer, and
     * whether it fails, do not depend on the order of the two terms.
     */
    method HasDependency(termid1: Term, termid2: Term) returns (r: Result<bool, GraphError>)
      requires Valid()
      ensures r.Err? <==> termid1 !in graph || termid2 !in graph
      ensures r.Ok? ==> (r.value <==> Reaches(graph, termid1, termid2) || Reaches(graph, termid2, termid1))
    {
      var up := IsAncestorDescendent(termid1, termid2);
      if up.Err? {
        return up;
      }
      if up.value {
        ReachesNode(graph, termid2, termid1);
        return Ok(true);
      }
      r := IsDescendentAncestor(termid1, termid2);
      if r.Ok? && !r.value && Reaches(graph, termid2, termid1) {
        ReachesNode(graph, termid2, termid1);
      }
    }
  }
}
