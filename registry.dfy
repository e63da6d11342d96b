/**
 * The in-memory group registry of server.js: the global `groups` object,
 * mapping a group id to its record, and the public-group listing built
 * from it.
 */
module Registry {
  import opened Wrappers
  import opened MemberList

  /** One chat message as stored in a group's log and broadcast. */
  datatype Message = Message(sender: Option<string>, text: string, timestamp: string)

  /** The record `{name, isPrivate, password, members, messages}` stored per group id. */
  datatype Group = Group(
    name: string,
    isPrivate: bool,
    password: Option<string>,
    members: seq<string>,
    messages: seq<Message>)

  /**
   * The whole registry. A JavaScript object is an ordered dictionary: `groups`
   * is its contents and `order` the order in which its keys were first
   * inserted, which is the order `Object.entries` lists them in.
   */
  datatype State = State(groups: map<string, Group>, order: seq<string>)

  /** The state every handler starts from: `const groups = {}`. */
  const Empty: State := State(map[], [])

  /** Every key is listed exactly once in `order`. */
  ghost predicate KeysEnumerated(st: State)
  {
    && NoDup(st.order)
    && (forall i :: 0 <= i < |st.order| ==> st.order[i] in st.groups)
    && (forall id :: id in st.groups ==> id in st.order)
  }

  /** No group lists the same username twice. */
  ghost predicate MembersDistinct(st: State)
  {
    forall id :: id in st.groups ==> NoDup(st.groups[id].members)
  }

  /** The invariant that every handler keeps. */
  ghost predicate Valid(st: State)
  {
    KeysEnumerated(st) && MembersDistinct(st)
  }

  /** One entry `{id, name, memberCount, messageCount}` of the public-group list. */
  datatype Summary = Summary(id: string, name: string, memberCount: nat, messageCount: nat)

  function Summarise(id: string, g: Group): (e: Summary)
    ensures e.id == id && e.name == g.name
    ensures e.memberCount == |g.members| && e.messageCount == |g.messages|
  {
    Summary(id, g.name, |g.members|, |g.messages|)
  }

  /**
   * `ids` filtered to the groups that are not private, each mapped to its
   * summary, in the order of `ids`.
   */
  function PublicSummaries(groups: map<string, Group>, ids: seq<string>): (r: seq<Summary>)
    ensures forall e :: e in r ==>
      e.id in ids && e.id in groups && !groups[e.id].isPrivate && e == Summarise(e.id, groups[e.id])
    ensures forall id :: id in ids && id in groups && !groups[id].isPrivate ==>
      Summarise(id, groups[id]) in r
    ensures NoDup(ids) ==> forall i, j :: 0 <= i < j < |r| ==> r[i].id != r[j].id
    decreases |ids|
  {
    if ids == [] then []
    else
      var rest := PublicSummaries(groups, ids[1..]);
      assert NoDup(ids) ==> NoDup(ids[1..]) && ids[0] !in ids[1..];
      if ids[0] in groups && !groups[ids[0]].isPrivate then
        var r := [Summarise(ids[0], groups[ids[0]])] + rest;
        assert forall j :: 0 < j < |r| ==> r[j] in rest;
        r
      else
        rest
  }
}
