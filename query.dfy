/**
 * The query builder: one GraphQL document with one aliased
 * `MediaListCollection` sub-query per username. Usernames are spliced into
 * the text verbatim.
 */
module Query {
  import opened Wrappers
  import opened Seqs

  /** The text between the alias and the quoted username. */
  const Mid: string := ": MediaListCollection(userName: \""
  /** The text after the quoted username. */
  const End: string := "\", type: ANIME){...mlc}"

  /** The fragment definition and the opening of the query body. */
  const Header: string := "\n    fragment mlc on MediaListCollection {\n      user {\n        name\n        id\n      }\n      lists {\n        status\n        entries {\n          media {\n            id\n            title {\n              native\n            }\n          }\n        }\n      }\n    }\n\n    query { "
  /** The closing of the query body. */
  const Trailer: string := " }\n  "

  /** The alias under which a user's collection comes back. */
  function Alias(name: string): string {
    "u" + name
  }

  /** The aliased sub-query for one username. */
  function SubQuery(name: string): (q: string)
    ensures |q| == 2 * |name| + 1 + |Mid| + |End|
  {
    Alias(name) + Mid + name + End
  }

  /** All sub-queries, in order, joined with no separator. */
  function QueriedUsers(names: seq<string>): string {
    if names == [] then "" else SubQuery(names[0]) + QueriedUsers(names[1..])
  }

  /** The whole query text sent for a list of usernames. */
  function MakeQuery(names: seq<string>): (q: string)
    ensures (forall k :: 0 <= k < |names| ==> NoQuote(names[k])) ==> ParseQuery(q) == Some(names)
  {
    assert (forall k :: 0 <= k < |names| ==> NoQuote(names[k])) ==>
      ParseQuery(Header + QueriedUsers(names) + Trailer) == Some(names)
    by {
      if forall k :: 0 <= k < |names| ==> NoQuote(names[k]) {
        QueryRoundTrip(names);
      }
    }
    Header + QueriedUsers(names) + Trailer
  }

  /** The aliases of the sub-queries, in order. */
  function Aliases(names: seq<string>): (r: seq<string>)
    ensures |r| == |names|
  {
    seq(|names|, i requires 0 <= i < |names| => Alias(names[i]))
  }

  predicate NoQuote(s: string) {
    forall i :: 0 <= i < |s| ==> s[i] != '"'
  }

  // ---------------------------------------------------------------------
  // Reading a query back: the inverse of MakeQuery on quote-free names.
  // ---------------------------------------------------------------------

  /** The index of the first double quote in `s`, if any. */
  function FirstQuote(s: string): (r: Option<nat>)
    ensures r.Some? ==> r.value < |s| && s[r.value] == '"' && NoQuote(s[..r.value])
    ensures r.None? ==> NoQuote(s)
  {
    if s == [] then None
    else if s[0] == '"' then Some(0)
    else match FirstQuote(s[1..])
      case None => None
      case Some(k) => Some(k + 1)
  }

  /**
   * Reads the first sub-query of `s`: the first double quote closes `Mid`,
   * which fixes the length of a name that holds no quote itself. Returns the
   * name and the length of its sub-query.
   */
  function ParseOne(s: string): (r: Option<(string, nat)>)
    ensures r.Some? ==> 0 < r.value.1 <= |s| && s[..r.value.1] == SubQuery(r.value.0)
  {
    match FirstQuote(s)
    case None => None
    case Some(q) =>
      if q < |Mid| then None
      else
        var len := q - |Mid|;
        var total := 2 * len + 1 + |Mid| + |End|;
        if total <= |s| && s[..total] == SubQuery(s[1..1 + len]) then Some((s[1..1 + len], total))
        else None
  }

  /** Splits a concatenation of sub-queries back into usernames. */
  function ParseUsers(s: string): Option<seq<string>>
    decreases |s|
  {
    if s == [] then Some([])
    else match ParseOne(s)
      case None => None
      case Some((name, total)) =>
        match ParseUsers(s[total..])
        case None => None
        case Some(rest) => Some([name] + rest)
  }

  /** Strips the fixed header and trailer and reads the sub-queries. */
  function ParseQuery(q: string): Option<seq<string>> {
    if |Header| + |Trailer| <= |q| && q[..|Header|] == Header && q[|q| - |Trailer|..] == Trailer
    then ParseUsers(q[|Header|..|q| - |Trailer|])
    else None
  }

  // ---------------------------------------------------------------------
  // Properties
  // ---------------------------------------------------------------------

  /** Joining distributes over concatenation: no separator is inserted. */
  lemma {:induction false} QueriedUsersAppend(a: seq<string>, b: seq<string>)
    ensures QueriedUsers(a + b) == QueriedUsers(a) + QueriedUsers(b)
  {
    if a != [] {
      assert (a + b)[1..] == a[1..] + b;
      QueriedUsersAppend(a[1..], b);
    } else {
      assert a + b == b;
    }
  }

  /**
   * The i-th username's sub-query sits in the joined text right after the
   * sub-queries of the usernames before it.
   */
  lemma SubQueryAt(names: seq<string>, i: nat)
    requires i < |names|
    ensures var off := |QueriedUsers(names[..i])|;
      off + |SubQuery(names[i])| <= |QueriedUsers(names)| &&
      QueriedUsers(names)[off..off + |SubQuery(names[i])|] == SubQuery(names[i])
  {
    var tail := [names[i]] + names[i + 1..];
    assert names == names[..i] + tail;
    QueriedUsersAppend(names[..i], tail);
    assert tail[1..] == names[i + 1..];
    var a, b, c := QueriedUsers(names[..i]), SubQuery(names[i]), QueriedUsers(names[i + 1..]);
    assert QueriedUsers(tail) == b + c;
    assert QueriedUsers(names) == a + b + c;
    assert (a + b + c)[|a|..|a| + |b|] == b;
  }

  /** The username appears verbatim, unescaped, twice in its sub-query. */
  lemma NameVerbatim(name: string)
    ensures SubQuery(name)[1..1 + |name|] == name
    ensures var at := 1 + |name| + |Mid|; SubQuery(name)[at..at + |name|] == name
  {
    var q := SubQuery(name);
    assert q == "u" + name + Mid + name + End;
  }

  /** Aliases are pairwise distinct exactly when the usernames are. */
  lemma AliasesDistinct(names: seq<string>)
    ensures Distinct(Aliases(names)) <==> Distinct(names)
  {
    var al := Aliases(names);
    forall i, j | 0 <= i < |names| && 0 <= j < |names|
      ensures al[i] == al[j] <==> names[i] == names[j]
    {
      assert al[i][1..] == names[i];
      assert al[j][1..] == names[j];
    }
  }

  /** The first quote of a sub-query of a quote-free name closes `Mid`. */
  lemma FirstQuoteOfSubQuery(name: string, rest: string)
    requires NoQuote(name)
    ensures FirstQuote(SubQuery(name) + rest) == Some(|name| + |Mid|)
  {
    var s := SubQuery(name) + rest;
    var k := |name| + |Mid|;
    assert s[k] == '"';
    assert forall i :: 0 <= i < |Mid| - 1 ==> Mid[i] != '"';
    assert NoQuote(s[..k]) by {
      forall i | 0 <= i < k ensures s[i] != '"' {
        if i == 0 {
        } else if i <= |name| {
          assert s[i] == name[i - 1];
        } else {
          assert s[i] == Mid[i - 1 - |name|];
        }
      }
    }
    FirstQuoteUnique(s, k);
  }

  /** A quote preceded only by non-quotes is the first one. */
  lemma {:induction false} FirstQuoteUnique(s: string, k: nat)
    requires k < |s| && s[k] == '"' && NoQuote(s[..k])
    ensures FirstQuote(s) == Some(k)
  {
    if k > 0 {
      assert s[0] == s[..k][0];
      assert s[1..][k - 1] == s[k];
      assert s[1..][..k - 1] == s[..k][1..];
      FirstQuoteUnique(s[1..], k - 1);
    }
  }

  /** Reading back the joined sub-queries of quote-free names gives the names. */
  lemma {:induction false} ParseUsersRoundTrip(names: seq<string>)
    requires forall k :: 0 <= k < |names| ==> NoQuote(names[k])
    ensures ParseUsers(QueriedUsers(names)) == Some(names)
  {
    if names != [] {
      var n := names[0];
      var rest := QueriedUsers(names[1..]);
      var s := SubQuery(n) + rest;
      assert s == QueriedUsers(names);
      FirstQuoteOfSubQuery(n, rest);
      var total := |SubQuery(n)|;
      assert s[..total] == SubQuery(n);
      assert s[1..1 + |n|] == n by { NameVerbatim(n); }
      assert ParseOne(s) == Some((n, total));
      assert s[total..] == rest;
      ParseUsersRoundTrip(names[1..]);
      assert [n] + names[1..] == names;
    }
  }

  /** Whatever ParseUsers accepts is exactly the join of what it returns. */
  lemma {:induction false} ParseUsersSound(s: string, names: seq<string>)
    requires ParseUsers(s) == Some(names)
    ensures QueriedUsers(names) == s
    decreases |s|
  {
    if s != [] {
      var (name, total) := ParseOne(s).value;
      var rest := ParseUsers(s[total..]).value;
      ParseUsersSound(s[total..], rest);
      assert names == [name] + rest;
      assert names[1..] == rest;
      assert s == s[..total] + s[total..];
    }
  }

  /** The three parts of `h + b + t` are recovered by slicing. */
  lemma Framed(h: string, b: string, t: string)
    ensures var q := h + b + t;
      |h| + |t| <= |q| && q[..|h|] == h && q[|q| - |t|..] == t && q[|h|..|q| - |t|] == b
  {
  }

  /** MakeQuery is read back to its input when no username holds a quote. */
  lemma QueryRoundTrip(names: seq<string>)
    requires forall k :: 0 <= k < |names| ==> NoQuote(names[k])
    ensures ParseQuery(Header + QueriedUsers(names) + Trailer) == Some(names)
  {
    Framed(Header, QueriedUsers(names), Trailer);
    ParseUsersRoundTrip(names);
  }

  /** Every text ParseQuery accepts is the query of the names it returns. */
  lemma ParseQuerySound(q: string, names: seq<string>)
    requires ParseQuery(q) == Some(names)
    ensures MakeQuery(names) == q
  {
    var body := q[|Header|..|q| - |Trailer|];
    ParseUsersSound(body, names);
    assert q == q[..|Header|] + body + q[|q| - |Trailer|..];
  }

  /**
   * Quote-free username lists never share a query text: distinct lists
   * produce distinct queries.
   */
  lemma MakeQueryInjective(a: seq<string>, b: seq<string>)
    requires forall k :: 0 <= k < |a| ==> NoQuote(a[k])
    requires forall k :: 0 <= k < |b| ==> NoQuote(b[k])
    requires MakeQuery(a) == MakeQuery(b)
    ensures a == b
  {
  }
}
