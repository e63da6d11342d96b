/**
 * The socket event handlers of server.js as pure transitions: each takes
 * the registry and the event's arguments and gives the new registry and the
 * events emitted, in emission order.
 */
module Handlers {
  import opened Wrappers
  import opened MemberList
  import opened Registry
  import opened Events

  datatype Outcome = Outcome(state: State, emits: seq<Emit>)

  const GroupNotFound := "Group not found"
  const IncorrectPassword := "Incorrect password"

  /** Every group other than `id` is present in `a` exactly when in `b`, with the same record. */
  ghost predicate SameElsewhere(a: map<string, Group>, b: map<string, Group>, id: string)
  {
    forall k :: k != id ==> (k in a <==> k in b) && (k in a ==> a[k] == b[k])
  }

  /** The join rule: a public group admits any password, a private one only its own. */
  predicate Admits(g: Group, password: Option<string>)
  {
    !g.isPrivate || g.password == password
  }

  /** JavaScript truthiness of `socket.username`: undefined and "" are false. */
  predicate Truthy(username: Option<string>)
  {
    username.Some? && username.value != ""
  }

  /** `create-group`: store a fresh record under `groupId`, overwriting any group already there. */
  function CreateGroup(st: State, groupId: string, groupName: string, isPrivate: bool,
                       password: Option<string>, username: string): (o: Outcome)
    ensures groupId in o.state.groups
    ensures o.state.groups[groupId] == Group(groupName, isPrivate, password, [username], [])
    ensures o.state.groups.Keys == st.groups.Keys + {groupId}
    ensures SameElsewhere(st.groups, o.state.groups, groupId)
    ensures o.state.order == if groupId in st.groups then st.order else st.order + [groupId]
    ensures o.emits == [ToRequester(GroupCreated(groupId, groupName, isPrivate))]
    ensures Valid(st) ==> Valid(o.state)
  {
    var order := if groupId in st.groups then st.order else st.order + [groupId];
    var groups := st.groups[groupId := Group(groupName, isPrivate, password, [username], [])];
    Outcome(State(groups, order), [ToRequester(GroupCreated(groupId, groupName, isPrivate))])
  }

  /** `join-group`: look the group up, check the password, add the username if absent, announce. */
  function JoinGroup(st: State, groupId: string, password: Option<string>, username: string): (o: Outcome)
    ensures groupId !in st.groups ==>
      o == Outcome(st, [ToRequester(Error(GroupNotFound))])
    ensures groupId in st.groups && !Admits(st.groups[groupId], password) ==>
      o == Outcome(st, [ToRequester(Error(IncorrectPassword))])
    ensures groupId in st.groups && Admits(st.groups[groupId], password) ==>
      && o.state.order == st.order
      && o.state.groups.Keys == st.groups.Keys
      && SameElsewhere(st.groups, o.state.groups, groupId)
      && var g, g' := st.groups[groupId], o.state.groups[groupId];
      && g'.(members := g.members) == g
      && g.members <= g'.members
      && g'.members == AddIfAbsent(g.members, username)
      && o.emits == [ToRequester(GroupJoined(groupId, g.name, g.isPrivate, g'.members, g.messages)),
                     ToOthers(groupId, UserJoined(username)),
                     ToAll(groupId, UpdateMembers(g'.members))]
    ensures Valid(st) ==> Valid(o.state)
  {
    if groupId !in st.groups then
      Outcome(st, [ToRequester(Error(GroupNotFound))])
    else
      var g := st.groups[groupId];
      if !Admits(g, password) then
        Outcome(st, [ToRequester(Error(IncorrectPassword))])
      else
        var members := if username !in g.members then g.members + [username] else g.members;
        var st' := st.(groups := st.groups[groupId := g.(members := members)]);
        Outcome(st', [ToRequester(GroupJoined(groupId, g.name, g.isPrivate, members, g.messages)),
                      ToOthers(groupId, UserJoined(username)),
                      ToAll(groupId, UpdateMembers(members))])
  }

  /** `send-message`: append one message to a known group's log and broadcast it; drop it otherwise. */
  function SendMessage(st: State, groupId: string, sender: Option<string>, text: string,
                       timestamp: string): (o: Outcome)
    ensures groupId !in st.groups ==> o == Outcome(st, [])
    ensures groupId in st.groups ==>
      && o.state.order == st.order
      && o.state.groups.Keys == st.groups.Keys
      && SameElsewhere(st.groups, o.state.groups, groupId)
      && var g, g' := st.groups[groupId], o.state.groups[groupId];
      && g'.(messages := g.messages) == g
      && |g'.messages| == |g.messages| + 1
      && g'.messages[..|g.messages|] == g.messages
      && g'.messages[|g.messages|] == Message(sender, text, timestamp)
      && o.emits == [ToAll(groupId, NewMessage(Message(sender, text, timestamp)))]
    ensures Valid(st) ==> Valid(o.state)
  {
    if groupId !in st.groups then Outcome(st, [])
    else
      var g := st.groups[groupId];
      var msg := Message(sender, text, timestamp);
      Outcome(st.(groups := st.groups[groupId := g.(messages := g.messages + [msg])]),
              [ToAll(groupId, NewMessage(msg))])
  }

  /** `typing`: tell the rest of the room, whatever room was named; no state change. */
  function Typing(st: State, groupId: string, username: Option<string>): (o: Outcome)
    ensures o.state == st
    ensures o.emits == [ToOthers(groupId, UserTyping(username))]
  {
    Outcome(st, [ToOthers(groupId, UserTyping(username))])
  }

  /** `stop-typing`: as `typing`, without a name. */
  function StopTyping(st: State, groupId: string): (o: Outcome)
    ensures o.state == st
    ensures o.emits == [ToOthers(groupId, UserStoppedTyping)]
  {
    Outcome(st, [ToOthers(groupId, UserStoppedTyping)])
  }

  /** Whether `leave-group` on `groupId` from a connection named `username` changes anything. */
  predicate Removes(st: State, groupId: string, username: Option<string>)
  {
    groupId in st.groups && Truthy(username) && username.value in st.groups[groupId].members
  }

  /** `leave-group`: filter the connection's username out of the member list and announce it. */
  function LeaveGroup(st: State, groupId: string, username: Option<string>): (o: Outcome)
    ensures !Removes(st, groupId, username) ==> o == Outcome(st, [])
    ensures Removes(st, groupId, username) ==>
      && o.state.order == st.order
      && o.state.groups.Keys == st.groups.Keys
      && SameElsewhere(st.groups, o.state.groups, groupId)
      && var g, g', u := st.groups[groupId], o.state.groups[groupId], username.value;
      && g'.(members := g.members) == g
      && g'.members == Without(g.members, u)
      && u !in g'.members
      && |g'.members| < |g.members|
      && o.emits == [ToOthers(groupId, UserLeft(u)), ToAll(groupId, UpdateMembers(g'.members))]
    ensures Valid(st) ==> Valid(o.state)
  {
    if groupId !in st.groups then Outcome(st, [])
    else
      var g := st.groups[groupId];
      if Truthy(username) && username.value in g.members then
        var members := Without(g.members, username.value);
        Outcome(st.(groups := st.groups[groupId := g.(members := members)]),
                [ToOthers(groupId, UserLeft(username.value)), ToAll(groupId, UpdateMembers(members))])
      else
        Outcome(st, [])
  }

  /** `list-public-groups`: a snapshot of every public group, sent to the requester only. */
  function ListPublicGroups(st: State): (o: Outcome)
    ensures o.state == st
    ensures |o.emits| == 1 && o.emits[0].ToRequester? && o.emits[0].payload.PublicGroups?
    ensures var list := o.emits[0].payload.summaries;
      && (forall e :: e in list ==>
            e.id in st.groups && !st.groups[e.id].isPrivate && e == Summarise(e.id, st.groups[e.id]))
      && (Valid(st) ==> forall id :: id in st.groups && !st.groups[id].isPrivate ==>
            Summarise(id, st.groups[id]) in list)
      && (Valid(st) ==> forall i, j :: 0 <= i < j < |list| ==> list[i].id != list[j].id)
  {
    Outcome(st, [ToRequester(PublicGroups(PublicSummaries(st.groups, st.order)))])
  }

  /** The dispatch of `socket.on(...)`: one inbound event, one transition. */
  function Step(st: State, ev: Inbound): Outcome
  {
    match ev.request
    case CreateGroupReq(id, name, isPrivate, password, username) =>
      CreateGroup(st, id, name, isPrivate, password, username)
    case JoinGroupReq(id, password, username) => JoinGroup(st, id, password, username)
    case SendMessageReq(id, text, timestamp) => SendMessage(st, id, ev.session, text, timestamp)
    case TypingReq(id) => Typing(st, id, ev.session)
    case StopTypingReq(id) => StopTyping(st, id)
    case LeaveGroupReq(id) => LeaveGroup(st, id, ev.session)
    case ListPublicGroupsReq => ListPublicGroups(st)
  }

  /** A sequence of events handled one at a time, as the event loop runs them. */
  function Run(st: State, evs: seq<Inbound>): Outcome
    decreases |evs|
  {
    if evs == [] then Outcome(st, [])
    else
      var first := Step(st, evs[0]);
      var rest := Run(first.state, evs[1..]);
      Outcome(rest.state, first.emits + rest.emits)
  }

  /** Whether `req` would (re)create the group `id`. */
  predicate Creates(req: Request, id: string)
  {
    req.CreateGroupReq? && req.newId == id
  }

  /** Every handler keeps the registry invariant. */
  lemma StepPreservesValid(st: State, ev: Inbound)
    requires Valid(st)
    ensures Valid(Step(st, ev).state)
  {
  }

  /** Any run of events from a valid registry (such as `Empty`) keeps keys enumerated once and members distinct. */
  lemma {:induction false} RunPreservesValid(st: State, evs: seq<Inbound>)
    requires Valid(st)
    ensures Valid(Run(st, evs).state)
    decreases |evs|
  {
    if evs != [] {
      StepPreservesValid(st, evs[0]);
      RunPreservesValid(Step(st, evs[0]).state, evs[1..]);
    }
  }

  /**
   * One event other than a `create-group` reusing `id` keeps group `id` and
   * its earlier messages; when the connection has no username, also its members.
   */
  lemma StepKeepsHistory(st: State, ev: Inbound, id: string)
    requires id in st.groups
    requires !Creates(ev.request, id)
    ensures id in Step(st, ev).state.groups
    ensures st.groups[id].messages <= Step(st, ev).state.groups[id].messages
    ensures ev.session == None ==> st.groups[id].members <= Step(st, ev).state.groups[id].members
  {
  }

  /**
   * Message logs are append-only: as long as no `create-group` reuses the id,
   * a group stays and its earlier messages stay in place.
   */
  lemma {:induction false} MessagesOnlyGrow(st: State, evs: seq<Inbound>, id: string)
    requires id in st.groups
    requires forall i :: 0 <= i < |evs| ==> !Creates(evs[i].request, id)
    ensures id in Run(st, evs).state.groups
    ensures st.groups[id].messages <= Run(st, evs).state.groups[id].messages
    decreases |evs|
  {
    if evs != [] {
      StepKeepsHistory(st, evs[0], id);
      MessagesOnlyGrow(Step(st, evs[0]).state, evs[1..], id);
    }
  }

  /**
   * Nobody ever leaves a group while no connection has a username: with every
   * session unset, as in server.js, the member list of a group only grows.
   */
  lemma {:induction false} NamelessMembersOnlyGrow(st: State, evs: seq<Inbound>, id: string)
    requires id in st.groups
    requires forall i :: 0 <= i < |evs| ==> !Creates(evs[i].request, id) && evs[i].session == None
    ensures id in Run(st, evs).state.groups
    ensures st.groups[id].members <= Run(st, evs).state.groups[id].members
    decreases |evs|
  {
    if evs != [] {
      StepKeepsHistory(st, evs[0], id);
      NamelessMembersOnlyGrow(Step(st, evs[0]).state, evs[1..], id);
    }
  }

  /** Joining again with the same arguments changes nothing and repeats the same emissions. */
  lemma JoinIdempotent(st: State, groupId: string, password: Option<string>, username: string)
    ensures var o := JoinGroup(st, groupId, password, username);
      JoinGroup(o.state, groupId, password, username) == o
  {
  }

  /** The wire names of what join-group emits, in emission order. */
  lemma JoinEventNames(st: State, groupId: string, password: Option<string>, username: string)
    ensures var o := JoinGroup(st, groupId, password, username);
      if groupId in st.groups && Admits(st.groups[groupId], password) then
        |o.emits| == 3 && EventName(o.emits[0].payload) == "group-joined"
        && EventName(o.emits[1].payload) == "user-joined" && EventName(o.emits[2].payload) == "update-members"
      else
        |o.emits| == 1 && EventName(o.emits[0].payload) == "error"
  {
  }

  /** Leave-group filters while keeping the order of the remaining members. */
  lemma LeaveKeepsOrder(st: State, groupId: string, username: Option<string>)
    requires Removes(st, groupId, username)
    ensures IsSubsequence(LeaveGroup(st, groupId, username).state.groups[groupId].members,
                          st.groups[groupId].members)
  {
    WithoutIsSubsequence(st.groups[groupId].members, username.value);
  }

  /** `join-group` by each of `users` in turn, with the same password. */
  function JoinMany(st: State, groupId: string, password: Option<string>, users: seq<string>): Outcome
    decreases |users|
  {
    if users == [] then Outcome(st, [])
    else
      var first := JoinGroup(st, groupId, password, users[0]);
      var rest := JoinMany(first.state, groupId, password, users[1..]);
      Outcome(rest.state, first.emits + rest.emits)
  }

  /**
   * Successive joins by distinct new usernames append them in order, and the
   * last emission is the `update-members` broadcast of the final list.
   */
  lemma {:induction false} JoinManyAppends(st: State, groupId: string, password: Option<string>,
                                           users: seq<string>)
    requires groupId in st.groups && Admits(st.groups[groupId], password)
    requires NoDup(st.groups[groupId].members + users)
    ensures var o := JoinMany(st, groupId, password, users);
      && groupId in o.state.groups
      && o.state.groups[groupId].members == st.groups[groupId].members + users
      && (users != [] ==>
            o.emits[|o.emits| - 1] == ToAll(groupId, UpdateMembers(st.groups[groupId].members + users)))
    decreases |users|
  {
    if users != [] {
      var m := st.groups[groupId].members;
      assert m + users == (m + [users[0]]) + users[1..];
      assert users[0] !in m by {
        var s := m + users;
        forall k | 0 <= k < |m|
          ensures m[k] != users[0]
        {
          assert s[k] == m[k] && s[|m|] == users[0];
        }
      }
      var first := JoinGroup(st, groupId, password, users[0]);
      assert first.state.groups[groupId].members == m + [users[0]];
      JoinManyAppends(first.state, groupId, password, users[1..]);
      if users[1..] == [] {
        assert users == [users[0]];
      }
    }
  }

  /**
   * Creating a group and then joining it with N further distinct usernames and
   * the right password leaves N + 1 members, and the last broadcast says so.
   */
  lemma CreateThenJoinCount(st: State, groupId: string, groupName: string, isPrivate: bool,
                            password: Option<string>, creator: string, users: seq<string>)
    requires NoDup([creator] + users)
    ensures var created := CreateGroup(st, groupId, groupName, isPrivate, password, creator).state;
      var o := JoinMany(created, groupId, password, users);
      && groupId in o.state.groups
      && |o.state.groups[groupId].members| == |users| + 1
      && (users != [] ==> o.emits[|o.emits| - 1] == ToAll(groupId, UpdateMembers([creator] + users)))
  {
    var created := CreateGroup(st, groupId, groupName, isPrivate, password, creator).state;
    JoinManyAppends(created, groupId, password, users);
  }

  /** A run from a valid registry leaves, in every group, as many members as distinct usernames. */
  lemma MemberCountIsDistinct(st: State, evs: seq<Inbound>, id: string)
    requires Valid(st)
    requires id in Run(st, evs).state.groups
    ensures var members := Run(st, evs).state.groups[id].members;
      |Elements(members)| == |members|
  {
    RunPreservesValid(st, evs);
    NoDupCardinality(Run(st, evs).state.groups[id].members);
  }

  /*
   * A walk-through with two connections, alice's and bob's, neither of
   * which has a username: alice creates the public group "Team", bob joins,
   * alice sends "hi", bob leaves, someone lists the public groups.
   */
  const Team0 := Group("Team", false, None, ["alice"], [])
  const Team1 := Team0.(members := ["alice", "bob"])
  const Team2 := Team1.(messages := [Message(None, "hi", "t0")])

  /** alice creates "Team": the state the rest of the walk-through starts from. */
  lemma WalkThroughCreate()
    ensures CreateGroup(Empty, "g1", "Team", false, None, "alice")
         == Outcome(State(map["g1" := Team0], ["g1"]), [ToRequester(GroupCreated("g1", "Team", false))])
  {
  }

  /** bob's join is announced to him with both names and to the room. */
  lemma WalkThroughJoin()
    ensures JoinGroup(State(map["g1" := Team0], ["g1"]), "g1", None, "bob")
         == Outcome(State(map["g1" := Team1], ["g1"]),
                    [ToRequester(GroupJoined("g1", "Team", false, ["alice", "bob"], [])),
                     ToOthers("g1", UserJoined("bob")),
                     ToAll("g1", UpdateMembers(["alice", "bob"]))])
  {
    assert AddIfAbsent(Team0.members, "bob") == ["alice", "bob"];
  }

  /** alice's message is stored and broadcast, with no sender since her connection has no username. */
  lemma WalkThroughSend()
    ensures SendMessage(State(map["g1" := Team1], ["g1"]), "g1", None, "hi", "t0")
         == Outcome(State(map["g1" := Team2], ["g1"]), [ToAll("g1", NewMessage(Message(None, "hi", "t0")))])
  {
  }

  /** bob's leave-group changes nothing, and the listing still counts two members. */
  lemma WalkThroughLeaveAndList()
    ensures LeaveGroup(State(map["g1" := Team2], ["g1"]), "g1", None) == Outcome(State(map["g1" := Team2], ["g1"]), [])
    ensures ListPublicGroups(State(map["g1" := Team2], ["g1"])).emits
         == [ToRequester(PublicGroups([Summary("g1", "Team", 2, 1)]))]
  {
    assert ["g1"][1..] == [];
    assert PublicSummaries(map["g1" := Team2], []) == [];
    assert PublicSummaries(map["g1" := Team2], ["g1"]) == [Summarise("g1", Team2)];
    assert |Team2.members| == 2 && |Team2.messages| == 1;
  }
}
