/**
 * The shapes of the topology query result that network building reads:
 * route relations with tags and ordered members, and member nodes with tags.
 */
module Overpass {
  import opened Wrappers

  /** A point element; only its tags are read. */
  datatype Node = Node(tags: map<string, string>)

  /**
   * A member of a relation with its role. Members that are not nodes
   * (ways, relations) carry no node.
   */
  datatype Member = Member(role: string, node: Option<Node>)

  /** A route relation: its tags and its members in order. */
  datatype Relation = Relation(tags: map<string, string>, members: seq<Member>)

  /** Reading a Go string map: a missing key reads as the empty string. */
  function Tag(tags: map<string, string>, key: string): (v: string)
    ensures key in tags ==> v == tags[key]
    ensures key !in tags ==> v == ""
  {
    if key in tags then tags[key] else ""
  }
}
