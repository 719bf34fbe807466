# Anime-graph visualiser, core logic in Dafny

The visualiser takes a list of AniList usernames and asks the GraphQL API for each user's anime lists in a single query. It folds the answer into a data set of users, unique anime and user→anime status edges, and draws that as a graph. User nodes have a fixed size. Anime nodes grow with the share of users who watch them. A search box highlights an anime node and centres the camera on it.

This project models the four pieces of sequential logic in that pipeline and proves what they promise:

- **Query** (`query.dfy`): `makeQuery`. It emits one aliased `MediaListCollection` sub-query per username, spliced into a fixed template. A reader function parses the text back. The two are proved inverse on usernames without a double quote.
- **Aggregation** (`aggregate.dfy`, `aggregate_facts.dfy`): `aggregate`, modelled imperatively.
  - Nested loops run over payloads, list groups and entries. An anime table is updated in place: `set` for a new id, `size++` for a repeat. A key order is kept, the way a JS `Map` iterates.
  - The loops are proved equal to a functional specification.
  - These facts are proved about the specification:
    - the status filter;
    - one status per retained entry;
    - distinct anime whose `size` counts their entries;
    - first-seen titles and first-insertion order;
    - referential integrity;
    - one status per (user, anime) pair, when user ids are distinct and no user lists a media twice across its retained groups;
    - `1 <= size <= users`, when no user lists a media twice across its retained groups.
- **Node ids** (`graph_utils.dfy`): `userNodeId`, `animeNodeId` and `getNodeType`.
- **Graph construction** (`graphology.dfy`, `graph_data.dfy`, `graph_facts.dfy`).
  - `graphology.dfy` holds the part of the graph library that is used. `addNode` refuses a duplicate node. `addEdge` refuses a missing endpoint or a repeated edge. `setNodeAttribute` refuses a missing node. A refusal is the library's throw.
  - `graph_data.dfy` holds the builder's three loops. The builder succeeds exactly when the data set is buildable, and then the graph holds exactly the specified nodes and edges.
  - `graph_facts.dfy` connects the builder to the aggregator. It proves three results about aggregated data, each under hypotheses. If user and media ids are positive, user ids are distinct, and no user lists a media twice across its retained groups, the data set builds. If no user lists a media twice, every colour lookup falls inside its palette and every anime radius is finite and lies in [5, 45]. These hypotheses are not checked by the code. Two users with the same id make the build fail (`GraphFacts.DuplicateUserNotBuildable`). A user who lists the same media in both a CURRENT and a COMPLETED group always produces a repeated edge, so the build fails. The repeat also adds one to that anime's counter. That can push the counter above the number of users, for example when the user is the only one, and only then is the colour undefined and the radius above 45. Every edge endpoint is a node on any aggregated data set, with no hypothesis (`GraphFacts.AggregatedEndpointsExist`).
- **Search control** (`search.dfy`): a class holding `search`, `values` and `selected`, the graph, and the log of camera moves.
  - Each handler (`clickStage`, `onInputChange`) is followed by the re-render's effects. These are the highlight cleanup, the candidate recomputation (a loop over the graph's nodes) and the new highlight with its camera move.
  - The class invariant says exactly the selected node is highlighted. So at most one node is highlighted at any time.

The source declares `Anime` with a `scores` list (`src/pages/types.tsx:43-47`). The code builds and reads a `size` counter instead (`src/pages/Index.tsx:145`, `src/pages/GraphDataController.tsx:44`). The model follows the code.

The code has no guard against an empty user list in the radius formula, so an anime's radius would then be a division by zero. The model gives no radius (`None`) in that case. It proves the case unreachable for aggregated data: with no users there are no anime (`AggregateFacts.NoUsersNoAnimes`).

## Model

| member | source | states |
|---|---|---|
| Query.MakeQuery | src/pages/Index.tsx:23-48 | for usernames without a double quote, reading the query text back yields exactly the usernames, in order |
| Query.QueriedUsersAppend | src/pages/Index.tsx:24-26 | sub-queries are joined with no separator: the join of a concatenation is the concatenation of the joins |
| Query.SubQueryAt | src/pages/Index.tsx:24-26 | the i-th username's `u<name>: MediaListCollection(userName: "<name>", type: ANIME){...mlc}` sits immediately after the sub-queries of the usernames before it |
| Query.NameVerbatim | src/pages/Index.tsx:25 | the username appears unescaped both in the alias and in the quoted argument |
| Query.AliasesDistinct | src/pages/Index.tsx:25 | the aliases `"u" + name` are pairwise distinct iff the usernames are |
| Query.ParseQuerySound | src/pages/Index.tsx:23-48 | every text the reader accepts is the query of the usernames it returns |
| Query.MakeQueryInjective | src/pages/Index.tsx:23-48 | two lists of quote-free usernames with the same query text are equal |
| Query.ParseUsersRoundTrip | src/pages/Index.tsx:24-26 | the joined sub-queries of quote-free usernames split back into those usernames |
| Aggregation.Aggregate | src/pages/Index.tsx:131-157 | the imperative fold returns exactly the specified data set: the users in order, the statuses of retained entries, and the anime table's values in key-insertion order |
| Aggregation.AddUser | src/pages/Index.tsx:134-154 | one payload's callback appends that payload's retained visits to the table and the statuses |
| Aggregation.AddGroup | src/pages/Index.tsx:135-153 | a group with a missing status, or a status other than CURRENT/COMPLETED, adds nothing; otherwise it adds its entries in order |
| Aggregation.AddEntry | src/pages/Index.tsx:140-151 | an entry increments the existing anime's counter, or inserts a new anime with counter 1 at the end of the key order, and emits one status |
| Aggregation.IncrementValues | src/pages/Index.tsx:141-143 | `size++` on the stored anime changes the values list exactly as one keyed-fold step does |
| Aggregation.AppendValues | src/pages/Index.tsx:144-145 | `set` of a new key appends the new anime to the values list |
| Aggregation.ValuesIds | src/pages/Index.tsx:156 | the values list holds one anime per key, in key order |
| AggregateFacts.DedupFacts | src/pages/Index.tsx:141-146 | first-occurrence deduplication is duplicate-free and keeps every id |
| AggregateFacts.InsertShape | src/pages/Index.tsx:141-146 | a fold step either appends a new anime or bumps only the matching anime's counter |
| AggregateFacts.FoldFacts | src/pages/Index.tsx:141-146 | the anime ids are the entry ids deduplicated in first-seen order; each counter is the number of entries with that id; each title is that of the first such entry |
| AggregateFacts.UsersProjected | src/pages/Index.tsx:132 | `users` has one element per payload, in order, each the payload's user |
| AggregateFacts.VisitsMembers | src/pages/Index.tsx:134-153 | an entry is visited iff it belongs to a retained group of some payload, with that payload's user |
| AggregateFacts.StatusesExactly | src/pages/Index.tsx:136-151 | a status is in the result iff some retained group's entry gives it: owner's user id, the entry's media id, the group's status |
| AggregateFacts.StatusesRetained | src/pages/Index.tsx:136-138 | every status is CURRENT or COMPLETED |
| AggregateFacts.StatusCount | src/pages/Index.tsx:140-151 | the number of statuses equals the total number of entries in retained groups |
| AggregateFacts.DroppedGroupIgnored | src/pages/Index.tsx:136-138 | removing a group that is not retained leaves the whole data set unchanged |
| AggregateFacts.AnimesFacts | src/pages/Index.tsx:141-156 | anime ids are pairwise distinct and in first-insertion order; each `size` is the number of statuses with that id, so at least 1; each title is the first retained entry's |
| AggregateFacts.ReferentialIntegrity | src/pages/Index.tsx:131-157 | every status names an anime and a user of the result, and every anime has a status |
| AggregateFacts.NoUsersNoAnimes | src/pages/Index.tsx:131-157 | with no users there are no anime and no statuses |
| AggregateFacts.CountBound | src/pages/Index.tsx:141-146 | when no user lists a media twice, any media id occurs among all retained entries at most as many times as there are payloads |
| AggregateFacts.SizeBound | src/pages/Index.tsx:141-146 | when no user lists a media twice, every anime's `size` lies between 1 and the number of users |
| AggregateFacts.StatusPairsUnique | src/pages/Index.tsx:140-151 | with distinct users who list each media once, no two statuses share both user and anime |
| GraphUtils.UserNodeId | src/pages/logic/graphUtils.ts:5-7 | the node id is the negated user id: positive user ids map to negative node ids |
| GraphUtils.AnimeNodeId | src/pages/logic/graphUtils.ts:9-11 | the node id is the anime id unchanged |
| GraphUtils.GetNodeType | src/pages/logic/graphUtils.ts:13-15 | the stored `nodeType` attribute is returned unchanged |
| GraphUtils.UserNodeIdInjective | src/pages/logic/graphUtils.ts:5-7 | distinct users get distinct node ids |
| GraphUtils.AnimeNodeIdInjective | src/pages/logic/graphUtils.ts:9-11 | distinct anime get distinct node ids |
| GraphUtils.NodeIdsDisjoint | src/pages/logic/graphUtils.ts:5-11 | a user and an anime with positive ids never share a node id, even when the ids are equal |
| GraphUtils.NodeIdsCollideAtZero | src/pages/logic/graphUtils.ts:5-11 | user and anime node ids coincide exactly when the ids are opposite; user 0 and anime 0 collide |
| Graphology.Graph.constructor | src/pages/GraphDataController.tsx:18 | a new graph is empty |
| Graphology.Graph.AddNode | src/pages/GraphDataController.tsx:35-42 | adding a node succeeds iff its key is new, and then appends it in iteration order; a refusal changes nothing; keys stay unique |
| Graphology.Graph.AddEdge | src/pages/GraphDataController.tsx:55-58 | adding an edge succeeds iff both endpoints exist and no edge already joins them in that direction; every edge joins two existing nodes |
| Graphology.Graph.SetHighlighted | src/pages/AnimeSearchControl.tsx:126 | setting `highlighted` succeeds iff the node exists and changes only that attribute of that node |
| GraphData.Palette | src/pages/GraphDataController.tsx:20-33 | a scale sampled at `users.length` points gives that many colours, the i-th at index i |
| GraphData.ColorAt | src/pages/GraphDataController.tsx:41-51 | a palette lookup is defined iff the index lies inside the palette, and then it is the colour at that index |
| GraphData.AnimeRadius | src/pages/GraphDataController.tsx:50 | the radius is undefined exactly when there are no users (division by zero) |
| GraphData.EdgeOf | src/pages/GraphDataController.tsx:54-58 | a status's edge goes from its user's node to its anime's node, with width 1 iff the status is COMPLETED and 2 otherwise |
| GraphData.BuildGraph | src/pages/GraphDataController.tsx:18-59 | the build completes iff node ids are distinct, every edge has both endpoints and no edge repeats; then the graph holds exactly the user nodes, anime nodes and status edges, in order, with their attributes |
| GraphData.AddUserNodes | src/pages/GraphDataController.tsx:34-43 | the first loop adds each user's node (label, size 25, `usercolors[i]`), or stops on a repeated id, which makes node ids not distinct |
| GraphData.AddAnimeNodes | src/pages/GraphDataController.tsx:44-53 | the second loop adds each anime's node (title, radius, `animecolors[size - 1]`), or stops on a repeated id |
| GraphData.AddEdges | src/pages/GraphDataController.tsx:54-59 | the third loop adds one edge per status in order; it completes iff every edge joins existing nodes and no two statuses share ends |
| GraphData.NodeRefused | src/pages/GraphDataController.tsx:35-45 | a refused node means two nodes of the data set share an id |
| GraphData.EdgeRefused | src/pages/GraphDataController.tsx:55 | a refused edge means a missing endpoint or an earlier status with the same ends |
| GraphFacts.RadiusBounds | src/pages/GraphDataController.tsx:50 | with users, the radius is at least 5, at most 45 while `size <= users`, and exactly 45 when every user lists the anime |
| GraphFacts.RadiusMonotone | src/pages/GraphDataController.tsx:50 | an anime listed by more users is drawn at least as large |
| GraphFacts.RadiusExamples | src/pages/GraphDataController.tsx:50 | 1 of 4 users gives 5.625, 2 of 4 gives 10, 4 of 4 gives 45; no users gives no radius |
| GraphFacts.NodeTypes | src/pages/GraphDataController.tsx:34-53 | in a built graph a node is of type Anime iff its id is an anime's node id, and of type User iff it is a user's |
| GraphFacts.AnimeIdsPositive | src/pages/GraphDataController.tsx:44-45 | with positive media ids, every aggregated anime id is positive, so anime node ids are positive |
| GraphFacts.AggregatedKeysDistinct | src/pages/GraphDataController.tsx:34-53 | with positive ids and distinct users, the user and anime node ids of an aggregated data set are pairwise distinct |
| GraphFacts.AggregatedBuildable | src/pages/GraphDataController.tsx:34-59 | an aggregated data set with positive ids, distinct users and each media listed once per user builds with no refused call: node ids are distinct and no edge repeats |
| GraphFacts.AggregatedEndpointsExist | src/pages/GraphDataController.tsx:54-58 | on every aggregated data set, with no hypothesis, each status edge goes from a user node and to an anime node that the builder adds |
| GraphFacts.DuplicateUserNotBuildable | src/pages/GraphDataController.tsx:34-43 | two users with the same id make the build fail |
| GraphFacts.AggregatedAttrsDefined | src/pages/GraphDataController.tsx:20-53 | on aggregated data where each media is listed once per user, every user colour and every anime colour `animecolors[size - 1]` is inside its palette, and every anime radius is finite and in [5, 45] |
| GraphFacts.AggregatedEdgeWidths | src/pages/GraphDataController.tsx:54-58 | every edge of aggregated data is COMPLETED with width 1 or CURRENT with width 2 |
| Search.LowerChar | src/pages/AnimeSearchControl.tsx:95 | upper-case ASCII letters map to lower case; other characters are kept |
| Search.Lower | src/pages/AnimeSearchControl.tsx:95 | lower-casing keeps the length and leaves no upper-case ASCII letter |
| Search.ContainsIff | src/pages/AnimeSearchControl.tsx:98 | `includes` holds iff the text occurs at some index |
| Search.CandidatesMembers | src/pages/AnimeSearchControl.tsx:95-100 | a candidate is exactly an Anime node with a non-empty label that contains the search (ignoring case), listed with its own label |
| Search.ValuesForMembers | src/pages/AnimeSearchControl.tsx:93-103 | the list is empty while a node is selected or the search is shorter than 2; otherwise it holds exactly the qualifying nodes |
| Search.NoUserCandidates | src/pages/AnimeSearchControl.tsx:98 | User nodes never appear among the candidates |
| Search.CandidatesAppend | src/pages/AnimeSearchControl.tsx:97-100 | candidates follow graph iteration order: the filter distributes over concatenation of node lists |
| Search.CandidatesFrame | src/pages/AnimeSearchControl.tsx:126-130 | highlighting or un-highlighting a node does not change the candidates |
| Search.CandidatesExample | src/pages/AnimeSearchControl.tsx:95-100 | the search "NA" finds the anime "Naruto" and skips the user "nana" |
| Search.FindByLabel | src/pages/AnimeSearchControl.tsx:139 | `find` returns the first candidate whose label equals the input, and nothing iff none does |
| Search.MarkUnmark | src/pages/AnimeSearchControl.tsx:121-132 | the cleanup of the old selection followed by the highlight of the new one is the whole move of the highlight |
| Search.RehighlightMoves | src/pages/AnimeSearchControl.tsx:121-132 | if exactly the previous selection was highlighted, afterwards exactly the new one is, and no other attribute changes |
| Search.SearchControl.constructor | src/pages/AnimeSearchControl.tsx:75-79 | the control starts with an empty search, an empty list and no selection, over a graph with nothing highlighted |
| Search.SearchControl.RecomputeValues | src/pages/AnimeSearchControl.tsx:93-103 | the loop over the graph's nodes leaves the list equal to the gated candidates of the current search |
| Search.SearchControl.Commit | src/pages/AnimeSearchControl.tsx:121-132 | the re-render un-highlights the old selection, recomputes the list when the search changed, highlights the new selection and moves the camera to it; exactly the selected node is highlighted afterwards |
| Search.SearchControl.ClickStage | src/pages/AnimeSearchControl.tsx:109-116 | a stage click clears the selection, the search and the list, and removes the highlight |
| Search.SearchControl.InputChange | src/pages/AnimeSearchControl.tsx:137-148 | input equal to a listed label selects the first such candidate, clears the list and centres on it; any other input clears the selection and becomes the search, and the list is recomputed if the text changed |

## Left out

- Query.MakeQuery: the round trip is stated only for usernames without a double quote. Usernames are spliced in unescaped, so a quote in a name changes the query's structure. `Query.NameVerbatim` states the splice itself.
- Network access: the GraphQL client, its endpoint, the SWR cache options and the Suspense fallback. The response is a parameter, a sequence of payloads in alias order. Aliases start with `u`, so no key looks like an integer and `Object.values` follows insertion order.
- React rendering, the JSX of all components, the page and fetcher components, and the URL-parameter hook that splits `users`. The hover and settings controllers are not part of this model.
- Effect timing and batching: a handler together with the effects of the render after it is one atomic transition (`Commit`). The mount effect that sets the input's DOM id is presentation only.
- Colour values from the chroma-js scales: a palette is a sequence of abstract shades (scale, index, count) of the requested length.
- `Math.random()` positions, the ForceAtlas2 layout, `loadGraph` and `assign`: the builder returns the graph and whether it completed. When an addition throws, the partially built graph is never loaded.
- Sigma's `gotoNode` is recorded as an entry in the `centered` log. Its camera animation and `registerEvents` are left out.
- GraphData.AnimeRadius: computed over exact reals, not IEEE doubles. With no users, JS produces NaN or Infinity; the model gives None.
- Search.Lower, Search.LowerChar: only ASCII letters are lower-cased. JS `toLowerCase` also folds non-ASCII letters.
- Search.ValuesFor, Search.SearchControl.RecomputeValues: the `search.length > 1` gate counts characters. JS counts UTF-16 code units, so one character outside the Basic Multilingual Plane already passes the gate in the source.
- Graph keys: the library turns node ids into strings, which the model keeps as integers. Distinct integers give distinct strings, and -0 and 0 both print as "0", which integers reproduce.
- Scores and rating statistics (`UserStat`, `scores`, `score`, `DrawMode`): no code shown computes them, and the query does not request them.
- Replacing the graph while the search control holds a selection (a new data set) is not modelled. The control works over one graph.
- Anime records are values in the table. The in-place `size++` on a shared object is modelled as replacing the table entry.
