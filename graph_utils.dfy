/**
 * Node ids: a user's node id is its user id negated, an anime's node id is
 * its anime id unchanged, so the two id spaces meet only at 0.
 */
module GraphUtils {
  import opened Types

  function UserNodeId(userId: int): (k: int)
    ensures userId > 0 ==> k < 0
    ensures -k == userId
  {
    -userId
  }

  function AnimeNodeId(animeId: int): (k: int)
    ensures animeId > 0 ==> k > 0
    ensures k == animeId
  {
    animeId
  }

  /** The `nodeType` attribute of a node, read as stored. */
  function GetNodeType(attr: NodeAttrs): (t: NodeType)
    ensures attr.(nodeType := t) == attr
  {
    attr.nodeType
  }

  /** Distinct users get distinct node ids. */
  lemma UserNodeIdInjective(a: int, b: int)
    ensures UserNodeId(a) == UserNodeId(b) <==> a == b
  {
  }

  /** Distinct anime get distinct node ids. */
  lemma AnimeNodeIdInjective(a: int, b: int)
    ensures AnimeNodeId(a) == AnimeNodeId(b) <==> a == b
  {
  }

  /** A user and an anime with positive ids never share a node id, even when the ids are equal. */
  lemma NodeIdsDisjoint(userId: int, animeId: int)
    requires userId > 0 && animeId > 0
    ensures UserNodeId(userId) != AnimeNodeId(animeId)
  {
  }

  /** The partition fails only at id 0: user 0 and anime 0 collide. */
  lemma NodeIdsCollideAtZero(userId: int, animeId: int)
    ensures UserNodeId(userId) == AnimeNodeId(animeId) <==> userId == -animeId
    ensures UserNodeId(0) == AnimeNodeId(0)
  {
  }
}
