/**
 * What the drawn graph promises: the radius curve and the node kinds. For
 * aggregated data: every edge endpoint is a node; the build succeeds when
 * ids are positive, user ids are distinct and no user lists a media twice
 * across its retained groups; and sizes and colours are defined when no
 * user lists a media twice.
 */
module GraphFacts {
  import opened Wrappers
  import opened Seqs
  import opened Types
  import opened GraphUtils
  import opened Graphology
  import opened GraphData
  import opened Aggregation
  import opened AggregateFacts

  // ---------------------------------------------------------------------
  // The radius curve
  // ---------------------------------------------------------------------

  lemma CubeMonotone(p: real, q: real)
    requires 0.0 <= p <= q
    ensures 0.0 <= p * p * p <= q * q * q
  {
    assert p * p <= q * q by {
      assert p * p <= p * q;
      assert p * q <= q * q;
    }
    assert p * p * p <= p * p * q;
    assert p * p * q <= q * q * q;
  }

  /**
   * With at least one user the radius is finite, never below 5, at most 45
   * while the count does not exceed the users, and exactly 45 when every
   * user lists the anime.
   */
  lemma RadiusBounds(size: nat, userCount: nat)
    requires userCount > 0
    ensures AnimeRadius(size, userCount).Some?
    ensures 5.0 <= AnimeRadius(size, userCount).value
    ensures size <= userCount ==> AnimeRadius(size, userCount).value <= 45.0
    ensures size == userCount ==> AnimeRadius(size, userCount).value == 45.0
  {
    var share := size as real / userCount as real;
    CubeMonotone(0.0, share);
    if size <= userCount {
      CubeMonotone(share, 1.0);
    }
    if size == userCount {
      assert share == 1.0;
    }
  }

  /** An anime listed by more users is drawn at least as large. */
  lemma RadiusMonotone(a: nat, b: nat, userCount: nat)
    requires a <= b && userCount > 0
    ensures AnimeRadius(a, userCount).value <= AnimeRadius(b, userCount).value
  {
    var n := userCount as real;
    assert a as real / n <= b as real / n;
    CubeMonotone(a as real / n, b as real / n);
  }

  /** The cubic curve on four users, and the division by zero on none. */
  lemma RadiusExamples()
    ensures AnimeRadius(1, 4) == Some(5.625)
    ensures AnimeRadius(2, 4) == Some(10.0)
    ensures AnimeRadius(4, 4) == Some(45.0)
    ensures AnimeRadius(1, 0) == None
  {
    assert 1.0 / 4.0 == 0.25;
    assert 2.0 / 4.0 == 0.5;
  }

  // ---------------------------------------------------------------------
  // Node kinds in a built graph
  // ---------------------------------------------------------------------

  /**
   * In a built graph a node has type Anime exactly when its id is the node
   * id of an anime of the data set, and type User exactly when it is the
   * node id of a user.
   */
  lemma NodeTypes(ds: DataSet, nodes: seq<int>, attrs: map<int, NodeAttrs>, edges: seq<Edge>, k: int)
    requires Buildable(ds) && Built(ds, nodes, attrs, edges)
    requires k in attrs
    ensures GetNodeType(attrs[k]) == AnimeNode <==> exists a :: a in ds.animes && AnimeNodeId(a.id) == k
    ensures GetNodeType(attrs[k]) == UserNode <==> exists u :: u in ds.users && UserNodeId(u.id) == k
  {
    var nl := NodeList(ds);
    var nu := |ds.users|;
    var keys := Keys(nl);
    var i :| 0 <= i < |keys| && keys[i] == k;
    if i < nu {
      assert ds.users[i] in ds.users;
      forall a | a in ds.animes ensures AnimeNodeId(a.id) != k {
        var j :| 0 <= j < |ds.animes| && ds.animes[j] == a;
        NodeListAt(ds, j);
        assert keys[nu + j] == AnimeNodeId(a.id);
      }
    } else {
      NodeListAt(ds, i - nu);
      assert ds.animes[i - nu] in ds.animes;
      forall u | u in ds.users ensures UserNodeId(u.id) != k {
        var j :| 0 <= j < nu && ds.users[j] == u;
        assert keys[j] == UserNodeId(u.id);
      }
    }
  }

  // ---------------------------------------------------------------------
  // Aggregated data sets build
  // ---------------------------------------------------------------------

  /** The ids the service hands out are positive. */
  predicate PositiveIds(m: UserMap) {
    && (forall r :: r in m ==> r.user.id > 0)
    && (forall r, g, e :: r in m && g in r.lists && e in g.entries ==> e.media.id > 0)
  }

  /** Every anime of an aggregated data set has a positive id. */
  lemma AnimeIdsPositive(m: UserMap)
    requires PositiveIds(m)
    ensures forall a :: a in Animes(m) ==> a.id > 0
  {
    ReferentialIntegrity(m);
    forall a | a in Animes(m) ensures a.id > 0 {
      var s :| s in Statuses(m) && s.animeId == a.id;
      StatusesExactly(m, s);
    }
  }

  /** The node ids of the builder: user node ids, then anime node ids. */
  lemma KeysSplit(ds: DataSet)
    ensures Keys(NodeList(ds)) ==
      seq(|ds.users|, i requires 0 <= i < |ds.users| => UserNodeId(ds.users[i].id)) + Ids(ds.animes)
  {
  }

  /** User and anime node ids of an aggregated data set are pairwise distinct. */
  lemma AggregatedKeysDistinct(m: UserMap)
    requires PositiveIds(m) && Distinct(UserIds(Users(m)))
    ensures Distinct(Keys(NodeList(DataSetOf(m))))
  {
    var ds := DataSetOf(m);
    var uk := seq(|ds.users|, i requires 0 <= i < |ds.users| => UserNodeId(ds.users[i].id));
    var ak := Ids(ds.animes);
    KeysSplit(ds);
    assert Distinct(uk) by {
      forall i, j | 0 <= i < j < |uk| ensures uk[i] != uk[j] {
        assert UserIds(Users(m))[i] == ds.users[i].id;
        assert UserIds(Users(m))[j] == ds.users[j].id;
      }
    }
    AnimesFacts(m);
    AnimeIdsPositive(m);
    forall i, j | 0 <= i < |uk| && 0 <= j < |ak| ensures uk[i] != ak[j] {
      assert m[i] in m;
      assert ds.animes[j] in Animes(m);
    }
    DistinctConcat(uk, ak);
  }

  /**
   * An aggregated data set builds without a refused call when ids are
   * positive, users are distinct and no user lists a media twice.
   */
  lemma AggregatedBuildable(m: UserMap)
    requires PositiveIds(m) && Distinct(UserIds(Users(m))) && OncePerUser(m)
    ensures Buildable(DataSetOf(m))
  {
    var sts := DataSetOf(m).statuses;
    AggregatedKeysDistinct(m);
    AggregatedEndpointsExist(m);
    StatusPairsUnique(m);
    forall i, j | 0 <= i < j < |sts| ensures !SameEnds(sts[i], sts[j]) {
      UserNodeIdInjective(sts[i].userId, sts[j].userId);
    }
  }

  /** On any aggregated data set, every edge's endpoints are among the nodes the builder adds. */
  lemma AggregatedEndpointsExist(m: UserMap)
    ensures var ds := DataSetOf(m);
      forall i :: 0 <= i < |ds.statuses| ==>
        EdgeOf(ds.statuses[i]).source in Keys(NodeList(ds)) && EdgeOf(ds.statuses[i]).target in Keys(NodeList(ds))
  {
    var ds := DataSetOf(m);
    var keys := Keys(NodeList(ds));
    var sts := ds.statuses;
    ReferentialIntegrity(m);
    forall i | 0 <= i < |sts| ensures EdgeOf(sts[i]).source in keys && EdgeOf(sts[i]).target in keys {
      var s := sts[i];
      assert s in Statuses(m);
      var u :| 0 <= u < |m| && UserIds(Users(m))[u] == s.userId;
      assert keys[u] == UserNodeId(s.userId);
      var a :| 0 <= a < |ds.animes| && Ids(Animes(m))[a] == s.animeId;
      NodeListAt(ds, a);
      assert keys[|ds.users| + a] == AnimeNodeId(s.animeId);
    }
  }

  /** Two payloads of the same user make the build fail on the second user node. */
  lemma DuplicateUserNotBuildable(ds: DataSet, i: nat, j: nat)
    requires i < j < |ds.users| && ds.users[i].id == ds.users[j].id
    ensures !Buildable(ds)
  {
    var keys := Keys(NodeList(ds));
    assert keys[i] == keys[j];
  }

  /**
   * When no user lists a media twice, every node of an aggregated data set
   * has a finite size and a colour: anime radii lie in [5, 45] and the
   * palette index `size - 1` falls inside the palette.
   */
  lemma AggregatedAttrsDefined(m: UserMap)
    requires OncePerUser(m)
    ensures var ds := DataSetOf(m);
      forall i :: 0 <= i < |ds.users| ==> UserAttrs(ds, i).color.Some?
    ensures var ds := DataSetOf(m);
      forall a :: a in ds.animes ==>
        && AnimeAttrs(ds, a).color.Some?
        && AnimeAttrs(ds, a).size.Some?
        && 5.0 <= AnimeAttrs(ds, a).size.value <= 45.0
  {
    var ds := DataSetOf(m);
    SizeBound(m);
    forall a | a in ds.animes
      ensures AnimeAttrs(ds, a).color.Some? && AnimeAttrs(ds, a).size.Some?
      ensures 5.0 <= AnimeAttrs(ds, a).size.value <= 45.0
    {
      RadiusBounds(a.size, |ds.users|);
    }
  }

  /** Every edge of an aggregated data set is a completed (width 1) or a current (width 2) one. */
  lemma AggregatedEdgeWidths(m: UserMap)
    ensures forall e :: e in EdgeList(Statuses(m)) ==>
      (e.attrs.caption == COMPLETED && e.attrs.size == 1) || (e.attrs.caption == CURRENT && e.attrs.size == 2)
  {
    var el := EdgeList(Statuses(m));
    StatusesRetained(m);
    forall e | e in el ensures (e.attrs.caption == COMPLETED && e.attrs.size == 1) || (e.attrs.caption == CURRENT && e.attrs.size == 2) {
      var i :| 0 <= i < |el| && el[i] == e;
      assert Statuses(m)[i] in Statuses(m);
    }
  }
}
