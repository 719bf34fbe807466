/**
 * The value types of the visualiser: the shape of the list-collection
 * response, the aggregated data set, and the attribute records the graph
 * builder stores on nodes and edges.
 */
module Types {
  import opened Wrappers

  /** The six watch states of a list group. */
  datatype Status = CURRENT | PLANNING | COMPLETED | DROPPED | PAUSED | REPEATING

  /** A queried user (rating statistics are not requested by the query). */
  datatype UserInfo = UserInfo(name: string, id: int)

  /** An anime as the response describes it; `title` is its native title. */
  datatype Media = Media(id: int, title: string)

  /** One list entry of a group. */
  datatype Entry = Entry(media: Media)

  /** One list group of a user; a custom list has no status. */
  datatype MediaEntryGroup = MediaEntryGroup(status: Option<Status>, entries: seq<Entry>)

  /** The payload of one alias: the user and their list groups. */
  datatype UserLists = UserLists(user: UserInfo, lists: seq<MediaEntryGroup>)

  /**
   * The response object, alias -> payload, as the sequence of its values in
   * iteration order. Aliases start with `u`, so none is an integer-like key
   * and iteration follows insertion order.
   */
  type UserMap = seq<UserLists>

  /** An aggregated anime: `size` counts the retained entries that name it. */
  datatype Anime = Anime(id: int, title: string, size: nat)

  /** One retained entry of one user: the user -> anime edge. */
  datatype AnimeStatus = AnimeStatus(userId: int, animeId: int, status: Status)

  datatype DataSet = DataSet(users: seq<UserInfo>, animes: seq<Anime>, statuses: seq<AnimeStatus>)

  /** The two kinds of node, the `nodeType` attribute values "User" and "Anime". */
  datatype NodeType = UserNode | AnimeNode

  /** The two colour scales: one for users, one for anime. */
  datatype Scale = UserScale | AnimeScale

  /** The `index`-th of `count` evenly spaced colours of a scale. */
  datatype Color = Shade(scale: Scale, index: nat, count: nat)

  /**
   * The attributes the visualiser stores on a node (`caption` is the `label`
   * attribute, a reserved word here). `size` is None when the
   * arithmetic that computes it is not finite (a division by zero); `color` is
   * None when a palette lookup falls outside the palette (`undefined`).
   * The random initial coordinates are not modelled.
   */
  datatype NodeAttrs = NodeAttrs(
    nodeType: NodeType,
    caption: string,
    size: Option<real>,
    color: Option<Color>,
    highlighted: bool)

  /** The attributes of a status edge: its label (`caption`) and its drawn width. */
  datatype EdgeAttrs = EdgeAttrs(caption: Status, size: nat)
}
