/**
 * The graph builder: one node per user, one node per anime, one edge per
 * status, added to a fresh graph in that order. Any refused addition (a
 * repeated node id, an edge to a missing node, a repeated edge) aborts the
 * build, and then no graph is loaded.
 */
module GraphData {
  import opened Wrappers
  import opened Seqs
  import opened Types
  import opened GraphUtils
  import opened Graphology

  /** The drawn radius of a user node. */
  const UserRadius: real := 25.0

  /** `count` evenly spaced colours of a scale, first to last. */
  function Palette(scale: Scale, count: nat): (p: seq<Color>)
    ensures |p| == count
    ensures forall i :: 0 <= i < count ==> p[i] == Shade(scale, i, count)
  {
    seq(count, i requires 0 <= i < count => Shade(scale, i, count))
  }

  /** Indexing a palette; outside it the lookup is `undefined`. */
  function ColorAt(p: seq<Color>, i: int): (c: Option<Color>)
    ensures c.Some? <==> 0 <= i < |p|
    ensures c.Some? ==> c.value == p[i]
  {
    if 0 <= i < |p| then Some(p[i]) else None
  }

  /**
   * The radius of an anime node: 5 plus 40 times the cube of the share of
   * users who list it. With no users the share is a division by zero and the
   * radius is not a finite number (None).
   */
  function AnimeRadius(size: nat, userCount: nat): (r: Option<real>)
    ensures r.None? <==> userCount == 0
  {
    if userCount == 0 then None
    else
      var share := size as real / userCount as real;
      Some(5.0 + 40.0 * (share * share * share))
  }

  function UserAttrs(ds: DataSet, i: nat): NodeAttrs
    requires i < |ds.users|
  {
    NodeAttrs(UserNode, ds.users[i].name, Some(UserRadius), ColorAt(Palette(UserScale, |ds.users|), i), false)
  }

  /** The anime palette has one colour per user and is indexed by `size - 1`. */
  function AnimeAttrs(ds: DataSet, a: Anime): NodeAttrs {
    NodeAttrs(AnimeNode, a.title, AnimeRadius(a.size, |ds.users|),
      ColorAt(Palette(AnimeScale, |ds.users|), a.size - 1), false)
  }

  /** The edge of a status: completed entries are drawn thin (1), current ones thick (2). */
  function EdgeOf(s: AnimeStatus): (e: Edge)
    ensures e.source == UserNodeId(s.userId) && e.target == AnimeNodeId(s.animeId)
    ensures e.attrs.size == 1 <==> s.status == COMPLETED
    ensures e.attrs.size == 2 <==> s.status != COMPLETED
  {
    Edge(UserNodeId(s.userId), AnimeNodeId(s.animeId),
      EdgeAttrs(s.status, if s.status == COMPLETED then 1 else 2))
  }

  /** The nodes the builder adds, in order: users first, then anime. */
  function NodeList(ds: DataSet): seq<(int, NodeAttrs)> {
    seq(|ds.users|, i requires 0 <= i < |ds.users| => (UserNodeId(ds.users[i].id), UserAttrs(ds, i)))
    + seq(|ds.animes|, i requires 0 <= i < |ds.animes| => (AnimeNodeId(ds.animes[i].id), AnimeAttrs(ds, ds.animes[i])))
  }

  function Keys(nl: seq<(int, NodeAttrs)>): seq<int> {
    seq(|nl|, i requires 0 <= i < |nl| => nl[i].0)
  }

  /** The edges the builder adds, in order. */
  function EdgeList(sts: seq<AnimeStatus>): seq<Edge> {
    seq(|sts|, i requires 0 <= i < |sts| => EdgeOf(sts[i]))
  }

  /** Two statuses would be drawn as the same (directed) edge. */
  predicate SameEnds(s: AnimeStatus, t: AnimeStatus) {
    EdgeOf(s).source == EdgeOf(t).source && EdgeOf(s).target == EdgeOf(t).target
  }

  /**
   * The data set builds without a refused call: node ids are pairwise
   * distinct, every edge joins two nodes, and no two statuses share ends.
   */
  predicate Buildable(ds: DataSet) {
    var keys := Keys(NodeList(ds));
    && Distinct(keys)
    && (forall i :: 0 <= i < |ds.statuses| ==>
          EdgeOf(ds.statuses[i]).source in keys && EdgeOf(ds.statuses[i]).target in keys)
    && (forall i, j :: 0 <= i < j < |ds.statuses| ==> !SameEnds(ds.statuses[i], ds.statuses[j]))
  }

  /** The graph holds exactly the nodes and edges of the data set, in order. */
  ghost predicate Built(ds: DataSet, nodes: seq<int>, attrs: map<int, NodeAttrs>, edges: seq<Edge>) {
    var nl := NodeList(ds);
    && nodes == Keys(nl)
    && (forall k :: k in attrs <==> k in nodes)
    && (forall i :: 0 <= i < |nl| ==> nl[i].0 in attrs && attrs[nl[i].0] == nl[i].1)
    && edges == EdgeList(ds.statuses)
  }

  /** The first `n` nodes of the list have been added, with their attributes. */
  ghost predicate NodesAdded(nl: seq<(int, NodeAttrs)>, n: nat, g: Graph)
    reads g
    requires n <= |nl|
  {
    && g.nodes == Keys(nl)[..n]
    && (forall i :: 0 <= i < n ==> nl[i].0 in g.attrs && g.attrs[nl[i].0] == nl[i].1)
  }

  /** The edge conditions of `Buildable`, for the statuses `sts` and node ids `keys`. */
  predicate EdgesJoinable(sts: seq<AnimeStatus>, keys: seq<int>) {
    && (forall i :: 0 <= i < |sts| ==> EdgeOf(sts[i]).source in keys && EdgeOf(sts[i]).target in keys)
    && (forall i, j :: 0 <= i < j < |sts| ==> !SameEnds(sts[i], sts[j]))
  }

  /**
   * Builds the graph of a data set. `loaded` is false when some addition
   * was refused (the library throws and the effect ends before loading).
   */
  method BuildGraph(ds: DataSet) returns (g: Graph, loaded: bool)
    ensures fresh(g) && g.Valid()
    ensures loaded <==> Buildable(ds)
    ensures loaded ==> Built(ds, g.nodes, g.attrs, g.edges)
  {
    g := new Graph();
    loaded := AddUserNodes(g, ds);
    if loaded {
      loaded := AddAnimeNodes(g, ds);
      if loaded {
        loaded := AddEdges(g, ds);
      }
    }
  }

  /** The first loop: one node per user, coloured by position. */
  method AddUserNodes(g: Graph, ds: DataSet) returns (ok: bool)
    requires g.Valid() && g.nodes == [] && g.edges == []
    modifies g
    ensures g.Valid() && g.edges == []
    ensures ok ==> NodesAdded(NodeList(ds), |ds.users|, g)
    ensures !ok ==> !Distinct(Keys(NodeList(ds)))
  {
    ghost var nl := NodeList(ds);
    var userColors := Palette(UserScale, |ds.users|);
    var i := 0;
    while i < |ds.users|
      invariant 0 <= i <= |ds.users|
      invariant g.Valid() && NodesAdded(nl, i, g) && g.edges == []
    {
      var u := ds.users[i];
      ok := g.AddNode(UserNodeId(u.id), NodeAttrs(UserNode, u.name, Some(UserRadius), ColorAt(userColors, i), false));
      if !ok {
        NodeRefused(nl, i, g.nodes);
        return;
      }
      i := i + 1;
    }
    ok := true;
  }

  /** The second loop: one node per anime, sized and coloured by its count. */
  method AddAnimeNodes(g: Graph, ds: DataSet) returns (ok: bool)
    requires g.Valid() && NodesAdded(NodeList(ds), |ds.users|, g) && g.edges == []
    modifies g
    ensures g.Valid() && g.edges == []
    ensures ok ==> NodesAdded(NodeList(ds), |NodeList(ds)|, g)
    ensures !ok ==> !Distinct(Keys(NodeList(ds)))
  {
    ghost var nl := NodeList(ds);
    var nu := |ds.users|;
    var animeColors := Palette(AnimeScale, nu);
    var i := 0;
    while i < |ds.animes|
      invariant 0 <= i <= |ds.animes|
      invariant g.Valid() && NodesAdded(nl, nu + i, g) && g.edges == []
    {
      var a := ds.animes[i];
      NodeListAt(ds, i);
      ok := g.AddNode(AnimeNodeId(a.id), NodeAttrs(AnimeNode, a.title, AnimeRadius(a.size, nu), ColorAt(animeColors, a.size - 1), false));
      if !ok {
        NodeRefused(nl, nu + i, g.nodes);
        return;
      }
      i := i + 1;
    }
    ok := true;
  }

  /** The third loop: one edge per status, from the user to the anime. */
  method AddEdges(g: Graph, ds: DataSet) returns (ok: bool)
    requires g.Valid() && NodesAdded(NodeList(ds), |NodeList(ds)|, g) && g.edges == []
    modifies g
    ensures g.Valid() && NodesAdded(NodeList(ds), |NodeList(ds)|, g)
    ensures ok <==> EdgesJoinable(ds.statuses, Keys(NodeList(ds)))
    ensures ok ==> g.edges == EdgeList(ds.statuses)
  {
    ghost var nl := NodeList(ds);
    ghost var keys := Keys(nl);
    assert g.nodes == keys by { assert keys[..|nl|] == keys; }
    var sts := ds.statuses;
    var k := 0;
    while k < |sts|
      invariant 0 <= k <= |sts|
      invariant g.Valid() && NodesAdded(nl, |nl|, g) && g.nodes == keys
      invariant g.edges == EdgeList(sts[..k])
      invariant EdgesJoinable(sts[..k], keys)
    {
      var s := sts[k];
      ok := g.AddEdge(UserNodeId(s.userId), AnimeNodeId(s.animeId),
        EdgeAttrs(s.status, if s.status == COMPLETED then 1 else 2));
      if !ok {
        EdgeRefused(sts, k, keys, g.edges);
        return;
      }
      JoinableStep(sts, k, keys);
      assert sts[..k + 1] == sts[..k] + [s];
      k := k + 1;
    }
    assert sts[..k] == sts;
    ok := true;
  }

  /** One more edge keeps the edge conditions when it was accepted. */
  lemma JoinableStep(sts: seq<AnimeStatus>, k: nat, keys: seq<int>)
    requires k < |sts| && EdgesJoinable(sts[..k], keys)
    requires EdgeOf(sts[k]).source in keys && EdgeOf(sts[k]).target in keys
    requires !HasEdge(EdgeList(sts[..k]), EdgeOf(sts[k]).source, EdgeOf(sts[k]).target)
    ensures EdgesJoinable(sts[..k + 1], keys)
  {
    var p := sts[..k + 1];
    forall i, j | 0 <= i < j < |p| ensures !SameEnds(p[i], p[j]) {
      if j == k {
        assert EdgeList(sts[..k])[i] == EdgeOf(p[i]);
      } else {
        assert p[i] == sts[..k][i] && p[j] == sts[..k][j];
      }
    }
  }

  /** A refused edge breaks one of the edge conditions. */
  lemma EdgeRefused(sts: seq<AnimeStatus>, k: nat, keys: seq<int>, edges: seq<Edge>)
    requires k < |sts| && edges == EdgeList(sts[..k])
    requires !(EdgeOf(sts[k]).source in keys && EdgeOf(sts[k]).target in keys && !HasEdge(edges, EdgeOf(sts[k]).source, EdgeOf(sts[k]).target))
    ensures !EdgesJoinable(sts, keys)
  {
    var e := EdgeOf(sts[k]);
    if HasEdge(edges, e.source, e.target) {
      var j :| 0 <= j < k && edges[j].source == e.source && edges[j].target == e.target;
      assert edges[j] == EdgeOf(sts[j]);
      assert SameEnds(sts[j], sts[k]);
    }
  }

  /** Where the builder's node list places each user and each anime. */
  lemma NodeListAt(ds: DataSet, i: nat)
    requires i < |ds.animes|
    ensures |NodeList(ds)| == |ds.users| + |ds.animes|
    ensures NodeList(ds)[|ds.users| + i] == (AnimeNodeId(ds.animes[i].id), AnimeAttrs(ds, ds.animes[i]))
  {
  }

  /** A refused node addition means some earlier node has the same id. */
  lemma NodeRefused(nl: seq<(int, NodeAttrs)>, n: nat, nodes: seq<int>)
    requires n < |nl| && nodes == Keys(nl)[..n] && nl[n].0 in nodes
    ensures !Distinct(Keys(nl))
  {
    var j :| 0 <= j < n && nodes[j] == nl[n].0;
    assert Keys(nl)[j] == Keys(nl)[n];
  }
}
