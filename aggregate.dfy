/**
 * The aggregator: folds the per-user list collections into a data set of
 * users, deduplicated anime with a watch counter, and one status edge per
 * retained list entry.
 */
module Aggregation {
  import opened Wrappers
  import opened Seqs
  import opened Types

  // ---------------------------------------------------------------------
  // Specification
  // ---------------------------------------------------------------------

  /** A list group counts only when its status is CURRENT or COMPLETED. */
  predicate Retained(s: Option<Status>) {
    s == Some(CURRENT) || s == Some(COMPLETED)
  }

  /** One retained entry: whose list, in which state, naming which anime. */
  datatype Visit = Visit(user: UserInfo, status: Status, media: Media)

  /** The visits of the entries of one retained group, in entry order. */
  function EntryVisits(user: UserInfo, st: Status, es: seq<Entry>): seq<Visit> {
    if es == [] then []
    else EntryVisits(user, st, es[..|es| - 1]) + [Visit(user, st, es[|es| - 1].media)]
  }

  /** The visits of one group: none unless the group is retained. */
  function GroupVisits(user: UserInfo, g: MediaEntryGroup): seq<Visit> {
    if Retained(g.status) then EntryVisits(user, g.status.value, g.entries) else []
  }

  /** The visits of all groups of one user, group by group. */
  function ListsVisits(user: UserInfo, lists: seq<MediaEntryGroup>): seq<Visit> {
    if lists == [] then []
    else ListsVisits(user, lists[..|lists| - 1]) + GroupVisits(user, lists[|lists| - 1])
  }

  /** The visits of the whole response, user by user. */
  function Visits(m: UserMap): seq<Visit> {
    if m == [] then []
    else Visits(m[..|m| - 1]) + ListsVisits(m[|m| - 1].user, m[|m| - 1].lists)
  }

  function StatusOf(v: Visit): AnimeStatus {
    AnimeStatus(v.user.id, v.media.id, v.status)
  }

  function StatusesOf(vs: seq<Visit>): seq<AnimeStatus> {
    seq(|vs|, i requires 0 <= i < |vs| => StatusOf(vs[i]))
  }

  function MediaOf(vs: seq<Visit>): seq<Media> {
    seq(|vs|, i requires 0 <= i < |vs| => vs[i].media)
  }

  function MediaIds(ms: seq<Media>): seq<int> {
    seq(|ms|, i requires 0 <= i < |ms| => ms[i].id)
  }

  function Ids(acc: seq<Anime>): seq<int> {
    seq(|acc|, i requires 0 <= i < |acc| => acc[i].id)
  }

  function AnimeIdsOf(sts: seq<AnimeStatus>): seq<int> {
    seq(|sts|, i requires 0 <= i < |sts| => sts[i].animeId)
  }

  function UserIds(us: seq<UserInfo>): seq<int> {
    seq(|us|, i requires 0 <= i < |us| => us[i].id)
  }

  /**
   * One step of the keyed fold: the first anime with the entry's id has its
   * counter incremented; otherwise a new anime with counter 1 is appended.
   */
  function Insert(acc: seq<Anime>, m: Media): seq<Anime> {
    if acc == [] then [Anime(m.id, m.title, 1)]
    else if acc[0].id == m.id then [acc[0].(size := acc[0].size + 1)] + acc[1..]
    else [acc[0]] + Insert(acc[1..], m)
  }

  /** The anime table after folding a sequence of entries, in insertion order. */
  function Fold(ms: seq<Media>): seq<Anime> {
    if ms == [] then [] else Insert(Fold(ms[..|ms| - 1]), ms[|ms| - 1])
  }

  /** The elements of `xs` at their first occurrence. */
  function Dedup(xs: seq<int>): seq<int> {
    if xs == [] then []
    else
      var d := Dedup(xs[..|xs| - 1]);
      if xs[|xs| - 1] in d then d else d + [xs[|xs| - 1]]
  }

  function Users(m: UserMap): seq<UserInfo> {
    seq(|m|, i requires 0 <= i < |m| => m[i].user)
  }

  function Statuses(m: UserMap): seq<AnimeStatus> {
    StatusesOf(Visits(m))
  }

  function Animes(m: UserMap): seq<Anime> {
    Fold(MediaOf(Visits(m)))
  }

  /** The data set the aggregator computes, as a function of the response. */
  function DataSetOf(m: UserMap): DataSet {
    DataSet(Users(m), Animes(m), Statuses(m))
  }

  // ---------------------------------------------------------------------
  // The aggregator: nested loops over users, groups and entries, with the
  // anime map updated in place (`set` for a new id, `size++` for a repeat).
  // ---------------------------------------------------------------------

  /**
   * The anime map: `order` is its key insertion order and `table` its
   * key -> value mapping; every value carries its own key as id.
   */
  ghost predicate Keyed(order: seq<int>, table: map<int, Anime>) {
    && Distinct(order)
    && (forall k :: k in order ==> k in table && table[k].id == k)
  }

  /** `Array.from(animes.values())`: the values in key insertion order. */
  function Values(order: seq<int>, table: map<int, Anime>): seq<Anime>
    requires forall k :: k in order ==> k in table
  {
    if order == [] then []
    else
      var first := order[0];
      assert first in order;
      assert first in table;
      [table[first]] + Values(order[1..], table)
  }

  /**
   * The accumulators after `done` has been folded: the anime map agrees with
   * Fold and the status list with StatusesOf.
   */
  ghost predicate Accumulated(done: seq<Visit>, order: seq<int>, table: map<int, Anime>, statuses: seq<AnimeStatus>) {
    && Keyed(order, table)
    && (forall k :: k in table ==> k in order)
    && Values(order, table) == Fold(MediaOf(done))
    && statuses == StatusesOf(done)
  }

  method Aggregate(userMap: UserMap) returns (ds: DataSet)
    ensures ds == DataSetOf(userMap)
  {
    var users := seq(|userMap|, i requires 0 <= i < |userMap| => userMap[i].user);
    var table: map<int, Anime> := map[];
    var order: seq<int> := [];
    var statuses: seq<AnimeStatus> := [];
    var i := 0;
    while i < |userMap|
      invariant 0 <= i <= |userMap|
      invariant Accumulated(Visits(userMap[..i]), order, table, statuses)
    {
      order, table, statuses := AddUser(Visits(userMap[..i]), userMap[i], order, table, statuses);
      assert userMap[..i + 1][..i] == userMap[..i];
      i := i + 1;
    }
    assert userMap[..i] == userMap;
    ds := DataSet(users, Values(order, table), statuses);
  }

  /** The callback for one user's payload: its groups in order. */
  method AddUser(ghost done: seq<Visit>, payload: UserLists,
                 order: seq<int>, table: map<int, Anime>, statuses: seq<AnimeStatus>)
    returns (order': seq<int>, table': map<int, Anime>, statuses': seq<AnimeStatus>)
    requires Accumulated(done, order, table, statuses)
    ensures Accumulated(done + ListsVisits(payload.user, payload.lists), order', table', statuses')
  {
    var user, lists := payload.user, payload.lists;
    order', table', statuses' := order, table, statuses;
    ghost var cur := done;
    assert ListsVisitsPrefix(done, user, lists, 0) == done by { assert lists[..0] == []; }
    var j := 0;
    while j < |lists|
      invariant 0 <= j <= |lists|
      invariant ListsVisitsPrefix(done, user, lists, j) == cur
      invariant Accumulated(cur, order', table', statuses')
    {
      order', table', statuses' := AddGroup(cur, user, lists[j], order', table', statuses');
      ListsVisitsPrefixStep(done, user, lists, j);
      cur := cur + GroupVisits(user, lists[j]);
      j := j + 1;
    }
    ListsVisitsPrefixAll(done, user, lists);
  }

  /**
   * The callback for one group: a group without a status, or with any status
   * other than CURRENT and COMPLETED, contributes nothing.
   */
  method AddGroup(ghost done: seq<Visit>, user: UserInfo, group: MediaEntryGroup,
                  order: seq<int>, table: map<int, Anime>, statuses: seq<AnimeStatus>)
    returns (order': seq<int>, table': map<int, Anime>, statuses': seq<AnimeStatus>)
    requires Accumulated(done, order, table, statuses)
    ensures Accumulated(done + GroupVisits(user, group), order', table', statuses')
  {
    order', table', statuses' := order, table, statuses;
    if group.status.None? {
      assert done + [] == done;
      return;
    }
    var status := group.status.value;
    if status != CURRENT && status != COMPLETED {
      assert done + [] == done;
      return;
    }
    assert done + EntryVisits(user, status, group.entries[..0]) == done;
    var k := 0;
    while k < |group.entries|
      invariant 0 <= k <= |group.entries|
      invariant Accumulated(done + EntryVisits(user, status, group.entries[..k]), order', table', statuses')
    {
      ghost var before := done + EntryVisits(user, status, group.entries[..k]);
      var media := group.entries[k].media;
      order', table', statuses' := AddEntry(before, user, status, media, order', table', statuses');
      EntryVisitsStep(user, status, group.entries, k);
      assert before + [Visit(user, status, media)] == done + EntryVisits(user, status, group.entries[..k + 1]);
      k := k + 1;
    }
    assert group.entries[..k] == group.entries;
  }

  /** The callback for one entry: look the anime up, count it, emit the edge. */
  method AddEntry(ghost done: seq<Visit>, user: UserInfo, status: Status, media: Media,
                  order: seq<int>, table: map<int, Anime>, statuses: seq<AnimeStatus>)
    returns (order': seq<int>, table': map<int, Anime>, statuses': seq<AnimeStatus>)
    requires Accumulated(done, order, table, statuses)
    ensures Accumulated(done + [Visit(user, status, media)], order', table', statuses')
  {
    ghost var v := Visit(user, status, media);
    FoldStep(done, v);
    order' := order;
    if media.id in table {
      IncrementValues(order, table, media);
      table' := table[media.id := table[media.id].(size := table[media.id].size + 1)];
    } else {
      AppendValues(order, table, media);
      table' := table[media.id := Anime(media.id, media.title, 1)];
      order' := order + [media.id];
    }
    statuses' := statuses + [AnimeStatus(user.id, media.id, status)];
    assert StatusesOf(done + [v]) == StatusesOf(done) + [StatusOf(v)];
  }

  /** The visits folded after the first `j` groups of a user. */
  ghost function ListsVisitsPrefix(done: seq<Visit>, user: UserInfo, lists: seq<MediaEntryGroup>, j: nat): seq<Visit>
    requires j <= |lists|
  {
    done + ListsVisits(user, lists[..j])
  }

  lemma ListsVisitsPrefixStep(done: seq<Visit>, user: UserInfo, lists: seq<MediaEntryGroup>, j: nat)
    requires j < |lists|
    ensures ListsVisitsPrefix(done, user, lists, j + 1) == ListsVisitsPrefix(done, user, lists, j) + GroupVisits(user, lists[j])
  {
    ListsVisitsStep(user, lists, j);
  }

  lemma ListsVisitsPrefixAll(done: seq<Visit>, user: UserInfo, lists: seq<MediaEntryGroup>)
    ensures ListsVisitsPrefix(done, user, lists, |lists|) == done + ListsVisits(user, lists)
  {
    assert lists[..|lists|] == lists;
  }

  lemma ListsVisitsStep(user: UserInfo, lists: seq<MediaEntryGroup>, j: nat)
    requires j < |lists|
    ensures ListsVisits(user, lists[..j + 1]) == ListsVisits(user, lists[..j]) + GroupVisits(user, lists[j])
  {
    assert lists[..j + 1][..j] == lists[..j];
  }

  lemma EntryVisitsStep(user: UserInfo, st: Status, es: seq<Entry>, k: nat)
    requires k < |es|
    ensures EntryVisits(user, st, es[..k + 1]) == EntryVisits(user, st, es[..k]) + [Visit(user, st, es[k].media)]
  {
    assert es[..k + 1][..k] == es[..k];
  }

  /** Folding one more visit inserts its anime into the table. */
  lemma FoldStep(done: seq<Visit>, v: Visit)
    ensures Fold(MediaOf(done + [v])) == Insert(Fold(MediaOf(done)), v.media)
  {
    var ms := MediaOf(done + [v]);
    assert ms[..|ms| - 1] == MediaOf(done);
  }

  /** Values only reads the keys listed in `order`. */
  lemma {:induction false} ValuesFrame(order: seq<int>, t: map<int, Anime>, t': map<int, Anime>)
    requires forall k :: k in order ==> k in t && k in t' && t[k] == t'[k]
    ensures Values(order, t) == Values(order, t')
  {
    if order != [] {
      var first := order[0];
      assert first in order;
      assert forall k :: k in order[1..] ==> k in order;
      ValuesFrame(order[1..], t, t');
      assert Values(order, t) == [t[first]] + Values(order[1..], t);
      assert Values(order, t') == [t'[first]] + Values(order[1..], t');
    }
  }

  /** Over a keyed map, the ids of the values are the keys in order. */
  lemma {:induction false} ValuesIds(order: seq<int>, t: map<int, Anime>)
    requires Keyed(order, t)
    ensures Ids(Values(order, t)) == order
  {
    if order != [] {
      var first := order[0];
      assert first in order;
      assert Keyed(order[1..], t);
      ValuesIds(order[1..], t);
      var vs := Values(order, t);
      assert vs == [t[first]] + Values(order[1..], t);
      assert t[first].id == first;
      assert Ids(vs) == [order[0]] + Ids(Values(order[1..], t));
    }
  }

  /** Incrementing the counter of a present key is an Insert of a repeat. */
  lemma {:induction false} IncrementValues(order: seq<int>, t: map<int, Anime>, m: Media)
    requires Keyed(order, t) && m.id in order
    ensures m.id in t
    ensures Values(order, t[m.id := t[m.id].(size := t[m.id].size + 1)]) == Insert(Values(order, t), m)
  {
    var t' := t[m.id := t[m.id].(size := t[m.id].size + 1)];
    var vs := Values(order, t);
    if order[0] == m.id {
      assert m.id !in order[1..];
      ValuesFrame(order[1..], t, t');
      assert vs[0].id == m.id;
      assert vs[1..] == Values(order[1..], t);
    } else {
      assert Keyed(order[1..], t);
      IncrementValues(order[1..], t, m);
      assert vs[0].id != m.id;
      assert vs[1..] == Values(order[1..], t);
    }
  }

  /** Adding a fresh key at the end appends a new anime with counter 1. */
  lemma {:induction false} AppendValues(order: seq<int>, t: map<int, Anime>, m: Media)
    requires Keyed(order, t) && m.id !in t
    ensures Values(order + [m.id], t[m.id := Anime(m.id, m.title, 1)]) == Insert(Values(order, t), m)
  {
    var t' := t[m.id := Anime(m.id, m.title, 1)];
    if order == [] {
      assert order + [m.id] == [m.id];
    } else {
      assert (order + [m.id])[1..] == order[1..] + [m.id];
      assert Keyed(order[1..], t);
      AppendValues(order[1..], t, m);
      var vs := Values(order, t);
      var first := order[0];
      assert first in order;
      assert first in t && t[first].id == first;
      assert vs[0] == t[first] && vs[0].id != m.id;
      assert vs[1..] == Values(order[1..], t);
    }
  }
}
