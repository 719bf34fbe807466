/**
 * The part of the graph library the visualiser uses: a directed, simple
 * graph whose nodes are kept in insertion order with an attribute record,
 * and whose `addNode`, `addEdge` and `setNodeAttribute` refuse (throw) on a
 * duplicate node, a missing endpoint, a duplicate edge or a missing node.
 * A refused call leaves the graph unchanged; `ok` reports it.
 */
module Graphology {
  import opened Types
  import opened Seqs

  datatype Edge = Edge(source: int, target: int, attrs: EdgeAttrs)

  /** Some edge already links `source` to `target`. */
  predicate HasEdge(edges: seq<Edge>, source: int, target: int) {
    exists i :: 0 <= i < |edges| && edges[i].source == source && edges[i].target == target
  }

  class Graph {
    /** Node keys in insertion order (the order `forEachNode` visits). */
    var nodes: seq<int>
    var attrs: map<int, NodeAttrs>
    var edges: seq<Edge>

    /** Keys are unique, every key has attributes, every edge joins two nodes. */
    ghost predicate Valid()
      reads this
    {
      && Distinct(nodes)
      && (forall k :: k in attrs <==> k in nodes)
      && (forall e :: e in edges ==> e.source in attrs && e.target in attrs)
    }

    constructor ()
      ensures Valid()
      ensures nodes == [] && attrs == map[] && edges == []
    {
      nodes, attrs, edges := [], map[], [];
    }

    method AddNode(key: int, a: NodeAttrs) returns (ok: bool)
      requires Valid()
      modifies this
      ensures Valid()
      ensures ok <==> key !in old(attrs)
      ensures ok ==> nodes == old(nodes) + [key] && attrs == old(attrs)[key := a] && edges == old(edges)
      ensures !ok ==> nodes == old(nodes) && attrs == old(attrs) && edges == old(edges)
    {
      ok := key !in attrs;
      if ok {
        nodes := nodes + [key];
        attrs := attrs[key := a];
      }
    }

    method AddEdge(source: int, target: int, a: EdgeAttrs) returns (ok: bool)
      requires Valid()
      modifies this
      ensures Valid()
      ensures ok <==> source in old(attrs) && target in old(attrs) && !HasEdge(old(edges), source, target)
      ensures ok ==> edges == old(edges) + [Edge(source, target, a)]
      ensures !ok ==> edges == old(edges)
      ensures nodes == old(nodes) && attrs == old(attrs)
    {
      ok := source in attrs && target in attrs &&
        !(exists i :: 0 <= i < |edges| && edges[i].source == source && edges[i].target == target);
      if ok {
        edges := edges + [Edge(source, target, a)];
      }
    }

    /** `setNodeAttribute(key, "highlighted", on)`. */
    method SetHighlighted(key: int, on: bool) returns (ok: bool)
      requires Valid()
      modifies this
      ensures Valid()
      ensures ok <==> key in old(attrs)
      ensures ok ==> attrs == old(attrs)[key := old(attrs)[key].(highlighted := on)]
      ensures !ok ==> attrs == old(attrs)
      ensures nodes == old(nodes) && edges == old(edges)
    {
      ok := key in attrs;
      if ok {
        attrs := attrs[key := attrs[key].(highlighted := on)];
      }
    }
  }
}
