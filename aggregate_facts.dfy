/**
 * What the aggregator promises about its result: the status filter, one
 * edge per retained entry, unique anime with a counter equal to the number
 * of their edges, first-seen titles and order, and referential integrity.
 */
module AggregateFacts {
  import opened Wrappers
  import opened Seqs
  import opened Types
  import opened Aggregation

  // ---------------------------------------------------------------------
  // Dedup and the keyed fold
  // ---------------------------------------------------------------------

  /** Dedup keeps every element exactly once. */
  lemma {:induction false} DedupFacts(xs: seq<int>)
    ensures Distinct(Dedup(xs))
    ensures forall x :: x in Dedup(xs) <==> x in xs
  {
    if xs != [] {
      var init := xs[..|xs| - 1];
      DedupFacts(init);
      assert xs == init + [xs[|xs| - 1]];
    }
  }

  /** Inserting into a table with distinct ids bumps the match or appends. */
  lemma {:induction false} InsertShape(acc: seq<Anime>, m: Media)
    requires Distinct(Ids(acc))
    ensures m.id !in Ids(acc) ==> Insert(acc, m) == acc + [Anime(m.id, m.title, 1)]
    ensures m.id in Ids(acc) ==> |Insert(acc, m)| == |acc|
    ensures m.id in Ids(acc) ==> forall i :: 0 <= i < |acc| ==>
      Insert(acc, m)[i] == if acc[i].id == m.id then acc[i].(size := acc[i].size + 1) else acc[i]
  {
    if acc != [] {
      var rest := acc[1..];
      forall i | 0 <= i < |acc| ensures Ids(acc)[i] == ([acc[0].id] + Ids(rest))[i] {
        if i > 0 {
          assert rest[i - 1] == acc[i];
        }
      }
      assert Ids(acc) == [acc[0].id] + Ids(rest);
      forall i, j | 0 <= i < j < |Ids(rest)| ensures Ids(rest)[i] != Ids(rest)[j] {
        assert Ids(rest)[i] == Ids(acc)[i + 1] && Ids(rest)[j] == Ids(acc)[j + 1];
      }
      InsertShape(rest, m);
      if acc[0].id == m.id {
        forall i | 1 <= i < |acc| ensures acc[i].id != m.id {
          assert Ids(acc)[i] == acc[i].id && Ids(acc)[0] == m.id;
        }
      } else {
        assert m.id in Ids(acc) <==> m.id in Ids(rest);
        if m.id !in Ids(rest) {
          assert Insert(acc, m) == [acc[0]] + (rest + [Anime(m.id, m.title, 1)]);
        }
      }
    }
  }

  /** The first entry with the anime's id carries the anime's title. */
  ghost predicate FirstOccurrence(ms: seq<Media>, a: Anime) {
    exists j :: 0 <= j < |ms| && ms[j] == Media(a.id, a.title) &&
      forall k :: 0 <= k < j ==> ms[k].id != a.id
  }

  /** What FoldFacts states about a table `f` built from the entries `ms`. */
  ghost predicate FoldInvariant(ms: seq<Media>, f: seq<Anime>) {
    && Ids(f) == Dedup(MediaIds(ms))
    && (forall i :: 0 <= i < |f| ==> f[i].size == multiset(MediaIds(ms))[f[i].id])
    && (forall i :: 0 <= i < |f| ==> FirstOccurrence(ms, f[i]))
  }

  /** Inserting an entry whose id is already in the table. */
  lemma FoldStepRepeat(init: seq<Media>, f: seq<Anime>, m: Media)
    requires FoldInvariant(init, f) && m.id in Ids(f)
    ensures FoldInvariant(init + [m], Insert(f, m))
  {
    var ms := init + [m];
    DedupFacts(MediaIds(init));
    InsertShape(f, m);
    var f' := Insert(f, m);
    assert MediaIds(ms) == MediaIds(init) + [m.id];
    assert m.id in MediaIds(init);
    assert Dedup(MediaIds(ms)) == Dedup(MediaIds(init)) by {
      assert MediaIds(ms)[..|MediaIds(ms)| - 1] == MediaIds(init);
    }
    assert forall i :: 0 <= i < |f'| ==> f'[i].id == f[i].id;
    assert Ids(f') == Ids(f);
    assert multiset(MediaIds(ms)) == multiset(MediaIds(init)) + multiset{m.id};
    forall i | 0 <= i < |f'| ensures FirstOccurrence(ms, f'[i]) {
      assert FirstOccurrence(init, f[i]);
      var j :| 0 <= j < |init| && init[j] == Media(f[i].id, f[i].title) &&
        forall k :: 0 <= k < j ==> init[k].id != f[i].id;
      assert ms[j] == init[j];
    }
  }

  /** Inserting an entry with a new id. */
  lemma FoldStepNew(init: seq<Media>, f: seq<Anime>, m: Media)
    requires FoldInvariant(init, f) && m.id !in Ids(f)
    ensures FoldInvariant(init + [m], Insert(f, m))
  {
    var ms := init + [m];
    DedupFacts(MediaIds(init));
    InsertShape(f, m);
    var f' := Insert(f, m);
    assert MediaIds(ms) == MediaIds(init) + [m.id];
    assert m.id !in MediaIds(init);
    assert Dedup(MediaIds(ms)) == Dedup(MediaIds(init)) + [m.id] by {
      assert MediaIds(ms)[..|MediaIds(ms)| - 1] == MediaIds(init);
    }
    assert Ids(f') == Ids(f) + [m.id];
    assert multiset(MediaIds(ms)) == multiset(MediaIds(init)) + multiset{m.id};
    assert multiset(MediaIds(init))[m.id] == 0;
    forall i | 0 <= i < |f| ensures f[i].id != m.id {
      assert Ids(f)[i] == f[i].id;
    }
    forall i | 0 <= i < |f'| ensures FirstOccurrence(ms, f'[i]) {
      if i < |f| {
        assert FirstOccurrence(init, f[i]);
        var j :| 0 <= j < |init| && init[j] == Media(f[i].id, f[i].title) &&
          forall k :: 0 <= k < j ==> init[k].id != f[i].id;
        assert ms[j] == init[j];
      } else {
        assert i == |f| && f'[i] == Anime(m.id, m.title, 1);
        forall k | 0 <= k < |init| ensures init[k].id != m.id {
          assert MediaIds(init)[k] == init[k].id;
        }
        assert ms[|init|] == Media(f'[i].id, f'[i].title);
      }
    }
  }

  /**
   * The keyed fold: ids are the entry ids at their first occurrence, each
   * counter is the number of entries with that id, each title is the title
   * of the first such entry.
   */
  lemma {:induction false} FoldFacts(ms: seq<Media>)
    ensures Ids(Fold(ms)) == Dedup(MediaIds(ms))
    ensures forall i :: 0 <= i < |Fold(ms)| ==> Fold(ms)[i].size == multiset(MediaIds(ms))[Fold(ms)[i].id]
    ensures forall i :: 0 <= i < |Fold(ms)| ==> FirstOccurrence(ms, Fold(ms)[i])
  {
    if ms != [] {
      var init, m := ms[..|ms| - 1], ms[|ms| - 1];
      FoldFacts(init);
      assert ms == init + [m];
      if m.id in Ids(Fold(init)) {
        FoldStepRepeat(init, Fold(init), m);
      } else {
        FoldStepNew(init, Fold(init), m);
      }
    }
  }

  // ---------------------------------------------------------------------
  // Where every visit comes from
  // ---------------------------------------------------------------------

  /** The visit stems from an entry of this retained group. */
  predicate FromGroup(g: MediaEntryGroup, v: Visit) {
    Retained(g.status) && g.status == Some(v.status) && Entry(v.media) in g.entries
  }

  ghost predicate FromLists(lists: seq<MediaEntryGroup>, v: Visit) {
    exists g :: g in lists && FromGroup(g, v)
  }

  lemma {:induction false} EntryVisitsMembers(user: UserInfo, st: Status, es: seq<Entry>, v: Visit)
    ensures v in EntryVisits(user, st, es) <==> v.user == user && v.status == st && Entry(v.media) in es
  {
    if es != [] {
      var init := es[..|es| - 1];
      EntryVisitsMembers(user, st, init, v);
      assert es == init + [es[|es| - 1]];
    }
  }

  lemma {:induction false} ListsVisitsMembers(user: UserInfo, lists: seq<MediaEntryGroup>, v: Visit)
    ensures v in ListsVisits(user, lists) <==> v.user == user && FromLists(lists, v)
  {
    if lists != [] {
      var init, g := lists[..|lists| - 1], lists[|lists| - 1];
      ListsVisitsMembers(user, init, v);
      assert lists == init + [g];
      assert ListsVisits(user, lists) == ListsVisits(user, init) + GroupVisits(user, g);
      if Retained(g.status) {
        EntryVisitsMembers(user, g.status.value, g.entries, v);
      }
      assert v in GroupVisits(user, g) <==> v.user == user && FromGroup(g, v);
      if v in ListsVisits(user, init) {
        var h :| h in init && FromGroup(h, v);
        assert h in lists;
      }
      if v in GroupVisits(user, g) {
        assert g in lists;
      }
      if v.user == user && FromLists(lists, v) {
        var h :| h in lists && FromGroup(h, v);
        if h != g {
          assert h in init;
        }
      }
    }
  }

  /** A visit is in the fold exactly when some payload's retained entry yields it. */
  lemma {:induction false} VisitsMembers(m: UserMap, v: Visit)
    ensures v in Visits(m) <==> exists r :: r in m && r.user == v.user && FromLists(r.lists, v)
  {
    if m != [] {
      var init, r := m[..|m| - 1], m[|m| - 1];
      VisitsMembers(init, v);
      ListsVisitsMembers(r.user, r.lists, v);
      assert m == init + [r];
      if exists q :: q in m && q.user == v.user && FromLists(q.lists, v) {
        var q :| q in m && q.user == v.user && FromLists(q.lists, v);
        if q != r {
          assert q in init;
        }
      }
    }
  }

  /**
   * The statuses are exactly the (user id, media id, group status) triples
   * of the entries of retained groups.
   */
  lemma StatusesExactly(m: UserMap, s: AnimeStatus)
    ensures s in Statuses(m) <==>
      exists r, g, e :: r in m && g in r.lists && e in g.entries && Retained(g.status) &&
        s == AnimeStatus(r.user.id, e.media.id, g.status.value)
  {
    var vs := Visits(m);
    if s in Statuses(m) {
      var i :| 0 <= i < |vs| && StatusOf(vs[i]) == s;
      var v := vs[i];
      VisitsMembers(m, v);
      var r :| r in m && r.user == v.user && FromLists(r.lists, v);
      var g :| g in r.lists && FromGroup(g, v);
      var e := Entry(v.media);
      assert r in m && g in r.lists && e in g.entries && Retained(g.status);
    }
    if exists r, g, e :: r in m && g in r.lists && e in g.entries && Retained(g.status) &&
        s == AnimeStatus(r.user.id, e.media.id, g.status.value) {
      var r, g, e :| r in m && g in r.lists && e in g.entries && Retained(g.status) &&
        s == AnimeStatus(r.user.id, e.media.id, g.status.value);
      var v := Visit(r.user, g.status.value, e.media);
      assert FromGroup(g, v);
      VisitsMembers(m, v);
      var i :| 0 <= i < |vs| && vs[i] == v;
      assert Statuses(m)[i] == s;
    }
  }

  /** Every status names a retained state. */
  lemma StatusesRetained(m: UserMap)
    ensures forall s :: s in Statuses(m) ==> s.status == CURRENT || s.status == COMPLETED
  {
    forall s | s in Statuses(m) ensures s.status == CURRENT || s.status == COMPLETED {
      StatusesExactly(m, s);
    }
  }

  // ---------------------------------------------------------------------
  // Counting
  // ---------------------------------------------------------------------

  /** The number of entries in the retained groups of one payload. */
  function RetainedEntries(lists: seq<MediaEntryGroup>): nat {
    if lists == [] then 0
    else
      var g := lists[|lists| - 1];
      RetainedEntries(lists[..|lists| - 1]) + (if Retained(g.status) then |g.entries| else 0)
  }

  /** The number of entries in retained groups over the whole response. */
  function TotalRetainedEntries(m: UserMap): nat {
    if m == [] then 0 else TotalRetainedEntries(m[..|m| - 1]) + RetainedEntries(m[|m| - 1].lists)
  }

  lemma {:induction false} EntryVisitsCount(user: UserInfo, st: Status, es: seq<Entry>)
    ensures |EntryVisits(user, st, es)| == |es|
  {
    if es != [] {
      EntryVisitsCount(user, st, es[..|es| - 1]);
    }
  }

  lemma {:induction false} ListsVisitsCount(user: UserInfo, lists: seq<MediaEntryGroup>)
    ensures |ListsVisits(user, lists)| == RetainedEntries(lists)
  {
    if lists != [] {
      var g := lists[|lists| - 1];
      ListsVisitsCount(user, lists[..|lists| - 1]);
      if Retained(g.status) {
        EntryVisitsCount(user, g.status.value, g.entries);
      }
    }
  }

  /** One status per entry of a retained group. */
  lemma {:induction false} StatusCount(m: UserMap)
    ensures |Statuses(m)| == TotalRetainedEntries(m)
  {
    if m != [] {
      var init := m[..|m| - 1];
      StatusCount(init);
      ListsVisitsCount(m[|m| - 1].user, m[|m| - 1].lists);
    }
  }

  // ---------------------------------------------------------------------
  // The status filter
  // ---------------------------------------------------------------------

  lemma {:induction false} ListsVisitsAppend(user: UserInfo, a: seq<MediaEntryGroup>, b: seq<MediaEntryGroup>)
    ensures ListsVisits(user, a + b) == ListsVisits(user, a) + ListsVisits(user, b)
  {
    if b == [] {
      assert a + b == a;
    } else {
      var b' := b[..|b| - 1];
      assert (a + b)[..|a + b| - 1] == a + b';
      ListsVisitsAppend(user, a, b');
    }
  }

  lemma {:induction false} VisitsAppend(a: UserMap, b: UserMap)
    ensures Visits(a + b) == Visits(a) + Visits(b)
  {
    if b == [] {
      assert a + b == a;
    } else {
      var b' := b[..|b| - 1];
      assert (a + b)[..|a + b| - 1] == a + b';
      VisitsAppend(a, b');
    }
  }

  /** The response with group `g` of payload `u` taken out. */
  function WithoutGroup(m: UserMap, u: nat, g: nat): UserMap
    requires u < |m| && g < |m[u].lists|
  {
    m[u := m[u].(lists := m[u].lists[..g] + m[u].lists[g + 1..])]
  }

  /** A single group that is not retained has no visits. */
  lemma ListsVisitsDropped(user: UserInfo, grp: MediaEntryGroup)
    requires !Retained(grp.status)
    ensures ListsVisits(user, [grp]) == []
  {
    assert [grp][..0] == [];
  }

  /** Taking a non-retained group out of a payload leaves its visits unchanged. */
  lemma ListsVisitsWithout(user: UserInfo, lists: seq<MediaEntryGroup>, g: nat)
    requires g < |lists| && !Retained(lists[g].status)
    ensures ListsVisits(user, lists[..g] + lists[g + 1..]) == ListsVisits(user, lists)
  {
    var a, x, c := lists[..g], [lists[g]], lists[g + 1..];
    assert lists == (a + x) + c;
    ListsVisitsAppend(user, a + x, c);
    ListsVisitsAppend(user, a, x);
    ListsVisitsAppend(user, a, c);
    ListsVisitsDropped(user, lists[g]);
    assert ListsVisits(user, a + x) == ListsVisits(user, a);
  }

  /** Replacing a payload by one with the same visits leaves the fold unchanged. */
  lemma VisitsReplace(m: UserMap, u: nat, r: UserLists)
    requires u < |m|
    requires ListsVisits(r.user, r.lists) == ListsVisits(m[u].user, m[u].lists)
    ensures Visits(m[u := r]) == Visits(m)
  {
    var m' := m[u := r];
    assert m == (m[..u] + [m[u]]) + m[u + 1..];
    assert m' == (m[..u] + [r]) + m[u + 1..];
    VisitsAppend(m[..u] + [m[u]], m[u + 1..]);
    VisitsAppend(m[..u], [m[u]]);
    VisitsAppend(m[..u] + [r], m[u + 1..]);
    VisitsAppend(m[..u], [r]);
    assert [m[u]][..0] == [] && [r][..0] == [];
  }

  /**
   * A group with no status, or with a status other than CURRENT and
   * COMPLETED, has no effect on the data set at all.
   */
  lemma DroppedGroupIgnored(m: UserMap, u: nat, g: nat)
    requires u < |m| && g < |m[u].lists|
    requires !Retained(m[u].lists[g].status)
    ensures DataSetOf(WithoutGroup(m, u, g)) == DataSetOf(m)
  {
    var r := m[u].(lists := m[u].lists[..g] + m[u].lists[g + 1..]);
    ListsVisitsWithout(m[u].user, m[u].lists, g);
    VisitsReplace(m, u, r);
    assert Users(WithoutGroup(m, u, g)) == Users(m);
  }

  // ---------------------------------------------------------------------
  // The anime list and referential integrity
  // ---------------------------------------------------------------------

  /** The media of the retained entries, in fold order. */
  function RetainedMedia(m: UserMap): seq<Media> {
    MediaOf(Visits(m))
  }

  lemma AnimeIdsOfStatuses(m: UserMap)
    ensures AnimeIdsOf(Statuses(m)) == MediaIds(RetainedMedia(m))
  {
  }

  /**
   * The anime list: ids pairwise distinct and in first-insertion order,
   * each counter equal to the number of statuses naming the anime (so at
   * least one), each title that of the first retained entry with the id.
   */
  lemma AnimesFacts(m: UserMap)
    ensures Ids(Animes(m)) == Dedup(AnimeIdsOf(Statuses(m)))
    ensures Distinct(Ids(Animes(m)))
    ensures forall i :: 0 <= i < |Animes(m)| ==>
      Animes(m)[i].size == multiset(AnimeIdsOf(Statuses(m)))[Animes(m)[i].id] >= 1
    ensures forall i :: 0 <= i < |Animes(m)| ==> FirstOccurrence(RetainedMedia(m), Animes(m)[i])
  {
    var ids := AnimeIdsOf(Statuses(m));
    AnimeIdsOfStatuses(m);
    FoldFacts(RetainedMedia(m));
    DedupFacts(ids);
    forall i | 0 <= i < |Animes(m)| ensures multiset(ids)[Animes(m)[i].id] >= 1 {
      assert Ids(Animes(m))[i] == Animes(m)[i].id;
      assert Animes(m)[i].id in Ids(Animes(m));
      assert Animes(m)[i].id in ids;
    }
  }

  /**
   * Every status points at an anime of the result and at a user of the
   * result, and every anime is pointed at by some status.
   */
  lemma ReferentialIntegrity(m: UserMap)
    ensures forall s :: s in Statuses(m) ==> s.animeId in Ids(Animes(m))
    ensures forall s :: s in Statuses(m) ==> s.userId in UserIds(Users(m))
    ensures forall a :: a in Animes(m) ==> exists s :: s in Statuses(m) && s.animeId == a.id
  {
    var sts := Statuses(m);
    AnimesFacts(m);
    DedupFacts(AnimeIdsOf(sts));
    forall s | s in sts ensures s.animeId in Ids(Animes(m)) && s.userId in UserIds(Users(m)) {
      var i :| 0 <= i < |sts| && sts[i] == s;
      assert AnimeIdsOf(sts)[i] == s.animeId;
      assert s.animeId in AnimeIdsOf(sts);
      StatusesExactly(m, s);
      var r, g, e :| r in m && g in r.lists && e in g.entries && Retained(g.status) &&
        s == AnimeStatus(r.user.id, e.media.id, g.status.value);
      var u :| 0 <= u < |m| && m[u] == r;
      assert UserIds(Users(m))[u] == s.userId;
    }
    forall a | a in Animes(m) ensures exists s :: s in sts && s.animeId == a.id {
      var i :| 0 <= i < |Animes(m)| && Animes(m)[i] == a;
      assert a.id in Ids(Animes(m));
      var k :| 0 <= k < |sts| && AnimeIdsOf(sts)[k] == a.id;
      assert sts[k] in sts;
    }
  }

  /** The users are the payloads' users, one per payload, in response order. */
  lemma UsersProjected(m: UserMap)
    ensures |Users(m)| == |m|
    ensures forall i :: 0 <= i < |m| ==> Users(m)[i] == m[i].user
  {
  }

  /** An empty user list yields no anime and no statuses. */
  lemma NoUsersNoAnimes(m: UserMap)
    requires |Users(m)| == 0
    ensures Animes(m) == [] && Statuses(m) == []
  {
  }

  // ---------------------------------------------------------------------
  // Bounding the counters
  // ---------------------------------------------------------------------

  /** Across its retained groups, no payload lists the same media twice. */
  predicate OncePerUser(m: UserMap) {
    forall r :: r in m ==> Distinct(MediaIds(MediaOf(ListsVisits(r.user, r.lists))))
  }

  lemma MediaIdsAppend(a: seq<Visit>, b: seq<Visit>)
    ensures MediaIds(MediaOf(a + b)) == MediaIds(MediaOf(a)) + MediaIds(MediaOf(b))
  {
  }

  lemma {:induction false} CountBound(m: UserMap, id: int)
    requires OncePerUser(m)
    ensures multiset(MediaIds(RetainedMedia(m)))[id] <= |m|
  {
    if m != [] {
      var init, r := m[..|m| - 1], m[|m| - 1];
      assert OncePerUser(init) by {
        forall q | q in init ensures q in m { }
      }
      CountBound(init, id);
      MediaIdsAppend(Visits(init), ListsVisits(r.user, r.lists));
      assert r in m;
      DistinctCount(MediaIds(MediaOf(ListsVisits(r.user, r.lists))), id);
    }
  }

  /**
   * When no user lists a media twice, each anime's counter lies between 1
   * and the number of users.
   */
  lemma SizeBound(m: UserMap)
    requires OncePerUser(m)
    ensures forall a :: a in Animes(m) ==> 1 <= a.size <= |Users(m)|
  {
    AnimesFacts(m);
    forall a | a in Animes(m) ensures 1 <= a.size <= |Users(m)| {
      var i :| 0 <= i < |Animes(m)| && Animes(m)[i] == a;
      AnimeIdsOfStatuses(m);
      CountBound(m, a.id);
    }
  }

  // ---------------------------------------------------------------------
  // One edge per (user, anime) pair
  // ---------------------------------------------------------------------

  /** No two statuses name both the same user and the same anime. */
  predicate UniquePairs(sts: seq<AnimeStatus>) {
    forall i, j :: 0 <= i < j < |sts| ==> sts[i].userId != sts[j].userId || sts[i].animeId != sts[j].animeId
  }

  /** Pairs stay unique across a join when the two parts share no user. */
  lemma UniquePairsConcat(a: seq<AnimeStatus>, b: seq<AnimeStatus>)
    requires UniquePairs(a) && UniquePairs(b)
    requires forall i, j :: 0 <= i < |a| && 0 <= j < |b| ==> a[i].userId != b[j].userId
    ensures UniquePairs(a + b)
  {
    forall i, j | 0 <= i < j < |a + b|
      ensures (a + b)[i].userId != (a + b)[j].userId || (a + b)[i].animeId != (a + b)[j].animeId
    {
      if j < |a| {
        assert (a + b)[i] == a[i] && (a + b)[j] == a[j];
      } else if i >= |a| {
        assert (a + b)[i] == b[i - |a|] && (a + b)[j] == b[j - |a|];
      }
    }
  }

  /** One payload's statuses all carry its user and, listed once each, unique anime. */
  lemma PayloadPairs(user: UserInfo, lists: seq<MediaEntryGroup>)
    requires Distinct(MediaIds(MediaOf(ListsVisits(user, lists))))
    ensures forall s :: s in StatusesOf(ListsVisits(user, lists)) ==> s.userId == user.id
    ensures UniquePairs(StatusesOf(ListsVisits(user, lists)))
  {
    var lv := ListsVisits(user, lists);
    var b := StatusesOf(lv);
    forall s | s in b ensures s.userId == user.id {
      var k :| 0 <= k < |b| && b[k] == s;
      assert lv[k] in lv;
      ListsVisitsMembers(user, lists, lv[k]);
    }
    forall i, j | 0 <= i < j < |b| ensures b[i].animeId != b[j].animeId {
      assert b[i].animeId == MediaIds(MediaOf(lv))[i];
      assert b[j].animeId == MediaIds(MediaOf(lv))[j];
    }
  }

  /**
   * When the users are distinct and none lists a media twice, the result
   * holds at most one status per (user, anime) pair.
   */
  lemma {:induction false} StatusPairsUnique(m: UserMap)
    requires Distinct(UserIds(Users(m)))
    requires OncePerUser(m)
    ensures UniquePairs(Statuses(m))
  {
    if m != [] {
      var init, r := m[..|m| - 1], m[|m| - 1];
      var uids := UserIds(Users(init));
      assert UserIds(Users(m)) == uids + [r.user.id];
      assert Distinct(uids) by {
        forall i, j | 0 <= i < j < |uids| ensures uids[i] != uids[j] {
          assert UserIds(Users(m))[i] == uids[i] && UserIds(Users(m))[j] == uids[j];
        }
      }
      assert r.user.id !in uids by {
        forall k | 0 <= k < |uids| ensures uids[k] != r.user.id {
          assert UserIds(Users(m))[k] == uids[k];
          assert UserIds(Users(m))[|m| - 1] == r.user.id;
        }
      }
      assert OncePerUser(init) by {
        forall q | q in init ensures q in m { }
      }
      StatusPairsUnique(init);
      ReferentialIntegrity(init);
      assert r in m;
      PayloadPairs(r.user, r.lists);
      var a: seq<AnimeStatus>, b: seq<AnimeStatus> := Statuses(init), StatusesOf(ListsVisits(r.user, r.lists));
      assert Statuses(m) == a + b;
      forall i, j | 0 <= i < |a| && 0 <= j < |b| ensures a[i].userId != b[j].userId {
        assert a[i] in a && b[j] in b;
      }
      UniquePairsConcat(a, b);
    }
  }
}
