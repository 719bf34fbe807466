/**
 * The anime search box: a text field with an autocomplete list of anime
 * nodes whose label contains the typed text (ignoring case), a selection
 * that highlights its node and centres the camera on it, and a click on the
 * empty stage that clears both.
 *
 * Each handler sets state; the re-render that follows runs the effects
 * whose dependency changed: the highlight cleanup of the previous
 * selection, the candidate recomputation (when `search` changed), and the
 * highlight of the new selection (when `selected` changed).
 */
module Search {
  import opened Wrappers
  import opened Types
  import opened GraphUtils
  import opened Graphology

  /** An autocomplete entry: a node id and its label. */
  datatype Candidate = Candidate(id: int, caption: string)

  // ---------------------------------------------------------------------
  // Text
  // ---------------------------------------------------------------------

  function LowerChar(c: char): (d: char)
    ensures 'A' <= c <= 'Z' ==> 'a' <= d <= 'z' && d as int - c as int == 32
    ensures !('A' <= c <= 'Z') ==> d == c
  {
    if 'A' <= c <= 'Z' then (c as int + 32) as char else c
  }

  /** Lower-casing, on the ASCII letters. */
  function Lower(s: string): (r: string)
    ensures |r| == |s|
    ensures forall i :: 0 <= i < |s| ==> r[i] == LowerChar(s[i])
    ensures forall i :: 0 <= i < |r| ==> !('A' <= r[i] <= 'Z')
  {
    seq(|s|, i requires 0 <= i < |s| => LowerChar(s[i]))
  }

  /** `s.includes(t)`: the empty text is contained in everything. */
  function Contains(s: string, t: string): bool
    decreases |s|
  {
    if |t| > |s| then false
    else if s[..|t|] == t then true
    else Contains(s[1..], t)
  }

  /** `t` occurs in `s` starting at index `i`. */
  predicate OccursAt(s: string, t: string, i: int) {
    0 <= i && i + |t| <= |s| && s[i..i + |t|] == t
  }

  /** Contains is substring search: both directions. */
  lemma {:induction false} ContainsIff(s: string, t: string)
    ensures Contains(s, t) <==> exists i :: OccursAt(s, t, i)
    decreases |s|
  {
    if |t| <= |s| && s[..|t|] != t {
      ContainsIff(s[1..], t);
      if i :| OccursAt(s, t, i) {
        assert i != 0;
        assert s[1..][i - 1..i - 1 + |t|] == t;
        assert OccursAt(s[1..], t, i - 1);
      }
      if i :| OccursAt(s[1..], t, i) {
        assert s[i + 1..i + 1 + |t|] == t;
        assert OccursAt(s, t, i + 1);
      }
    } else if |t| <= |s| {
      assert OccursAt(s, t, 0);
    } else {
      assert forall i :: !OccursAt(s, t, i);
    }
  }

  /** A label matches a search when it contains it, ignoring case. */
  predicate Matches(caption: string, search: string) {
    Contains(Lower(caption), Lower(search))
  }

  // ---------------------------------------------------------------------
  // Candidates
  // ---------------------------------------------------------------------

  /** The node qualifies as a candidate: an anime with a non-empty matching label. */
  predicate Qualifies(attr: NodeAttrs, search: string) {
    GetNodeType(attr) == AnimeNode && attr.caption != "" && Matches(attr.caption, search)
  }

  /** The qualifying nodes, in the graph's iteration order. */
  function Candidates(nodes: seq<int>, attrs: map<int, NodeAttrs>, search: string): seq<Candidate>
    requires forall k :: k in nodes ==> k in attrs
  {
    if nodes == [] then []
    else
      var key := nodes[|nodes| - 1];
      assert key in nodes;
      Candidates(nodes[..|nodes| - 1], attrs, search)
        + (if Qualifies(attrs[key], search) then [Candidate(key, attrs[key].caption)] else [])
  }

  /** The autocomplete list: empty while a node is selected or the search is shorter than two characters. */
  function ValuesFor(nodes: seq<int>, attrs: map<int, NodeAttrs>, search: string, selected: Option<int>): seq<Candidate>
    requires forall k :: k in nodes ==> k in attrs
  {
    if selected.None? && |search| > 1 then Candidates(nodes, attrs, search) else []
  }

  /** The candidates are exactly the qualifying nodes, each with its own label. */
  lemma {:induction false} CandidatesMembers(nodes: seq<int>, attrs: map<int, NodeAttrs>, search: string, c: Candidate)
    requires forall k :: k in nodes ==> k in attrs
    ensures c in Candidates(nodes, attrs, search) <==>
      c.id in nodes && Qualifies(attrs[c.id], search) && c.caption == attrs[c.id].caption
  {
    if nodes != [] {
      var init := nodes[..|nodes| - 1];
      CandidatesMembers(init, attrs, search, c);
      assert nodes == init + [nodes[|nodes| - 1]];
    }
  }

  /**
   * The list holds exactly the qualifying nodes when nothing is selected and
   * the search has two characters or more, and nothing otherwise.
   */
  lemma ValuesForMembers(nodes: seq<int>, attrs: map<int, NodeAttrs>, search: string, selected: Option<int>, c: Candidate)
    requires forall k :: k in nodes ==> k in attrs
    ensures c in ValuesFor(nodes, attrs, search, selected) <==>
      && selected.None? && |search| > 1
      && c.id in nodes && Qualifies(attrs[c.id], search) && c.caption == attrs[c.id].caption
  {
    CandidatesMembers(nodes, attrs, search, c);
  }

  /** User nodes never become candidates. */
  lemma NoUserCandidates(nodes: seq<int>, attrs: map<int, NodeAttrs>, search: string)
    requires forall k :: k in nodes ==> k in attrs
    ensures forall c :: c in Candidates(nodes, attrs, search) ==> c.id in attrs && GetNodeType(attrs[c.id]) == AnimeNode
  {
    forall c | c in Candidates(nodes, attrs, search) ensures c.id in attrs && GetNodeType(attrs[c.id]) == AnimeNode {
      CandidatesMembers(nodes, attrs, search, c);
    }
  }

  /** The filter keeps iteration order: it distributes over concatenation. */
  lemma {:induction false} CandidatesAppend(a: seq<int>, b: seq<int>, attrs: map<int, NodeAttrs>, search: string)
    requires forall k :: k in a + b ==> k in attrs
    ensures Candidates(a + b, attrs, search) == Candidates(a, attrs, search) + Candidates(b, attrs, search)
  {
    if b == [] {
      assert a + b == a;
    } else {
      var init := b[..|b| - 1];
      assert (a + b)[..|a + b| - 1] == a + init;
      CandidatesAppend(a, init, attrs, search);
    }
  }

  /** Highlighting a node does not change the candidates. */
  lemma {:induction false} CandidatesFrame(nodes: seq<int>, attrs: map<int, NodeAttrs>, k: int, on: bool, search: string)
    requires forall n :: n in nodes ==> n in attrs
    requires k in attrs
    ensures Candidates(nodes, attrs[k := attrs[k].(highlighted := on)], search) == Candidates(nodes, attrs, search)
  {
    if nodes != [] {
      CandidatesFrame(nodes[..|nodes| - 1], attrs, k, on, search);
    }
  }

  /** A mixed-case search finds an anime by its label and skips a user whose name also matches. */
  lemma CandidatesExample()
    ensures var attrs := map[
        -1 := NodeAttrs(UserNode, "nana", Some(25.0), None, false),
        7 := NodeAttrs(AnimeNode, "Naruto", Some(5.0), None, false)];
      Candidates([-1, 7], attrs, "NA") == [Candidate(7, "Naruto")]
  {
    var attrs := map[
      -1 := NodeAttrs(UserNode, "nana", Some(25.0), None, false),
      7 := NodeAttrs(AnimeNode, "Naruto", Some(5.0), None, false)];
    assert [-1, 7][..1] == [-1];
    assert Lower("NA") == "na";
    assert Lower("Naruto")[..2] == "na";
  }

  /** `values.find(v => v.label === text)`: the first candidate with that label. */
  function FindByLabel(vs: seq<Candidate>, text: string): (r: Option<Candidate>)
    ensures r.None? <==> forall i :: 0 <= i < |vs| ==> vs[i].caption != text
    ensures r.Some? ==> r.value.caption == text
    ensures r.Some? ==>
      exists i :: 0 <= i < |vs| && vs[i] == r.value && (forall j :: 0 <= j < i ==> vs[j].caption != text)
  {
    if vs == [] then None
    else if vs[0].caption == text then Some(vs[0])
    else
      var r := FindByLabel(vs[1..], text);
      assert forall i :: 1 <= i < |vs| ==> vs[i] == vs[1..][i - 1];
      r
  }

  // ---------------------------------------------------------------------
  // Highlight
  // ---------------------------------------------------------------------

  /** The attributes after the selection moves from `prev` to `next`. */
  function Rehighlight(attrs: map<int, NodeAttrs>, prev: Option<int>, next: Option<int>): map<int, NodeAttrs> {
    map k | k in attrs ::
      if prev != next && (prev == Some(k) || next == Some(k)) then attrs[k].(highlighted := next == Some(k))
      else attrs[k]
  }

  /** The cleanup step: the previous selection loses its highlight. */
  function Unmark(attrs: map<int, NodeAttrs>, prev: Option<int>, next: Option<int>): map<int, NodeAttrs> {
    if prev != next && prev.Some? && prev.value in attrs
    then attrs[prev.value := attrs[prev.value].(highlighted := false)]
    else attrs
  }

  /** The effect step: the new selection gains its highlight. */
  function Mark(attrs: map<int, NodeAttrs>, prev: Option<int>, next: Option<int>): map<int, NodeAttrs> {
    if prev != next && next.Some? && next.value in attrs
    then attrs[next.value := attrs[next.value].(highlighted := true)]
    else attrs
  }

  /** Cleanup then effect is the whole move of the highlight. */
  lemma MarkUnmark(attrs: map<int, NodeAttrs>, prev: Option<int>, next: Option<int>)
    ensures Mark(Unmark(attrs, prev, next), prev, next) == Rehighlight(attrs, prev, next)
  {
    var r := Mark(Unmark(attrs, prev, next), prev, next);
    var h := Rehighlight(attrs, prev, next);
    assert r.Keys == h.Keys;
    forall k | k in r ensures r[k] == h[k] {
    }
  }

  /**
   * Moving the selection moves the highlight: if exactly `prev` was
   * highlighted, afterwards exactly `next` is, and no other attribute of any
   * node changes.
   */
  lemma RehighlightMoves(attrs: map<int, NodeAttrs>, prev: Option<int>, next: Option<int>)
    requires forall k :: k in attrs ==> (attrs[k].highlighted <==> prev == Some(k))
    ensures Rehighlight(attrs, prev, next).Keys == attrs.Keys
    ensures forall k :: k in attrs ==> (Rehighlight(attrs, prev, next)[k].highlighted <==> next == Some(k))
    ensures forall k :: k in attrs ==> Rehighlight(attrs, prev, next)[k].(highlighted := false) == attrs[k].(highlighted := false)
  {
  }

  // ---------------------------------------------------------------------
  // The control
  // ---------------------------------------------------------------------

  class SearchControl {
    const graph: Graph
    var search: string
    var values: seq<Candidate>
    var selected: Option<int>
    /** The nodes the camera was sent to, in order. */
    var centered: seq<int>

    /**
     * The graph is well formed; exactly the selected node is highlighted;
     * while a node is selected the list is empty; otherwise the list is
     * empty or the candidates of the current search.
     */
    ghost predicate Valid()
      reads this, graph
    {
      && graph.Valid()
      && (selected.Some? ==> selected.value in graph.attrs)
      && (forall k :: k in graph.attrs ==> (graph.attrs[k].highlighted <==> selected == Some(k)))
      && (selected.Some? ==> values == [])
      && (values == [] || (|search| > 1 && values == Candidates(graph.nodes, graph.attrs, search)))
    }

    constructor (g: Graph)
      requires g.Valid()
      requires forall k :: k in g.attrs ==> !g.attrs[k].highlighted
      ensures Valid()
      ensures graph == g && search == "" && values == [] && selected == None && centered == []
    {
      graph := g;
      search, values, selected, centered := "", [], None, [];
    }

    /** The candidate effect: refills the list by one pass over the graph's nodes. */
    method RecomputeValues()
      requires graph.Valid()
      modifies this
      ensures values == ValuesFor(graph.nodes, graph.attrs, search, selected)
      ensures search == old(search) && selected == old(selected) && centered == old(centered)
    {
      var newValues: seq<Candidate> := [];
      var needle := Lower(search);
      if selected.None? && |search| > 1 {
        var nodes := graph.nodes;
        var i := 0;
        while i < |nodes|
          invariant 0 <= i <= |nodes|
          invariant newValues == Candidates(nodes[..i], graph.attrs, search)
        {
          var key := nodes[i];
          var attr := graph.attrs[key];
          if GetNodeType(attr) == AnimeNode && attr.caption != "" && Contains(Lower(attr.caption), needle) {
            newValues := newValues + [Candidate(key, attr.caption)];
          }
          assert nodes[..i + 1][..i] == nodes[..i];
          i := i + 1;
        }
        assert nodes[..i] == nodes;
      }
      values := newValues;
    }

    /** The state a handler leaves behind before the effects run. */
    ghost predicate Pending(prevSearch: string, prevSelected: Option<int>)
      reads this, graph
    {
      && graph.Valid()
      && (prevSelected.Some? ==> prevSelected.value in graph.attrs)
      && (selected.Some? ==> selected.value in graph.attrs)
      && (forall k :: k in graph.attrs ==> (graph.attrs[k].highlighted <==> prevSelected == Some(k)))
      && (selected.Some? ==> values == [])
      && (search == prevSearch ==>
            values == [] || (|search| > 1 && values == Candidates(graph.nodes, graph.attrs, search)))
    }

    /** The re-render: cleanup of the old highlight, candidate effect, new highlight and camera move. */
    method Commit(prevSearch: string, prevSelected: Option<int>)
      requires Pending(prevSearch, prevSelected)
      modifies this, graph
      ensures Valid()
      ensures search == old(search) && selected == old(selected)
      ensures graph.nodes == old(graph.nodes) && graph.edges == old(graph.edges)
      ensures graph.attrs == Rehighlight(old(graph.attrs), prevSelected, selected)
      ensures values == if search != prevSearch then ValuesFor(graph.nodes, graph.attrs, search, selected) else old(values)
      ensures centered == old(centered) + if selected != prevSelected && selected.Some? then [selected.value] else []
    {
      ghost var attrs0 := graph.attrs;
      if selected != prevSelected && prevSelected.Some? {
        var _ := graph.SetHighlighted(prevSelected.value, false);
        CandidatesFrame(graph.nodes, attrs0, prevSelected.value, false, search);
      }
      assert graph.attrs == Unmark(attrs0, prevSelected, selected);
      if search != prevSearch {
        RecomputeValues();
      }
      ghost var attrs1 := graph.attrs;
      if selected != prevSelected && selected.Some? {
        var _ := graph.SetHighlighted(selected.value, true);
        CandidatesFrame(graph.nodes, attrs1, selected.value, true, search);
        centered := centered + [selected.value];
      }
      assert graph.attrs == Mark(attrs1, prevSelected, selected);
      MarkUnmark(attrs0, prevSelected, selected);
      RehighlightMoves(attrs0, prevSelected, selected);
    }

    /** A click on the empty stage clears the selection and the search text. */
    method ClickStage()
      requires Valid()
      modifies this, graph
      ensures Valid()
      ensures selected == None && search == "" && values == []
      ensures graph.nodes == old(graph.nodes) && graph.edges == old(graph.edges)
      ensures graph.attrs == Rehighlight(old(graph.attrs), old(selected), None)
      ensures centered == old(centered)
    {
      var prevSearch, prevSelected := search, selected;
      selected := None;
      search := "";
      Commit(prevSearch, prevSelected);
    }

    /**
     * A change of the text field. Text equal to the label of a listed
     * candidate selects the first such candidate; any other text clears the
     * selection and becomes the search.
     */
    method InputChange(input: string)
      requires Valid()
      modifies this, graph
      ensures Valid()
      ensures graph.nodes == old(graph.nodes) && graph.edges == old(graph.edges)
      ensures graph.attrs == Rehighlight(old(graph.attrs), old(selected), selected)
      ensures search == input
      ensures FindByLabel(old(values), input).Some? ==>
        && selected == Some(FindByLabel(old(values), input).value.id)
        && values == []
        && centered == old(centered) + if old(selected) != selected then [selected.value] else []
      ensures FindByLabel(old(values), input).None? ==>
        && selected == None
        && values == (if input != old(search) then ValuesFor(graph.nodes, graph.attrs, input, None) else old(values))
        && centered == old(centered)
    {
      var prevSearch, prevSelected := search, selected;
      var item := FindByLabel(values, input);
      if item.Some? {
        CandidatesMembers(graph.nodes, graph.attrs, search, item.value);
        search := item.value.caption;
        values := [];
        selected := Some(item.value.id);
      } else {
        selected := None;
        search := input;
      }
      Commit(prevSearch, prevSelected);
    }
  }
}
