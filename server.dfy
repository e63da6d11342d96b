/**
 * The server of server.js as objects: one `ChatServer` holding the mutable
 * `groups` registry, one `Connection` per socket, and one method per
 * `socket.on(...)` handler, each proved against its transition in Handlers.
 */
module Server {
  import opened Wrappers
  import opened Registry
  import opened Events
  import Handlers

  /**
   * One socket. server.js reads `socket.username` when it sends, types and
   * leaves, but never assigns it, so it is unset for every connection.
   */
  class Connection {
    var username: Option<string>

    constructor ()
      ensures username == None
    {
      username := None;
    }
  }

  class ChatServer {
    /** The `groups` object's contents. */
    var groups: map<string, Group>
    /** The insertion order of its keys. */
    var order: seq<string>

    function Snapshot(): State
      reads this
    {
      State(groups, order)
    }

    ghost predicate Valid()
      reads this
    {
      Registry.Valid(Snapshot())
    }

    constructor ()
      ensures Valid() && Snapshot() == Empty
    {
      groups := map[];
      order := [];
    }

    method CreateGroup(groupId: string, groupName: string, isPrivate: bool,
                       password: Option<string>, username: string) returns (out: seq<Emit>)
      requires Valid()
      modifies this
      ensures Valid()
      ensures Handlers.Outcome(Snapshot(), out)
           == Handlers.CreateGroup(old(Snapshot()), groupId, groupName, isPrivate, password, username)
    {
      if groupId !in groups {
        order := order + [groupId];
      }
      groups := groups[groupId := Group(groupName, isPrivate, password, [username], [])];
      out := [ToRequester(GroupCreated(groupId, groupName, isPrivate))];
    }

    method JoinGroup(groupId: string, password: Option<string>, username: string)
      returns (out: seq<Emit>)
      requires Valid()
      modifies this
      ensures Valid()
      ensures Handlers.Outcome(Snapshot(), out)
           == Handlers.JoinGroup(old(Snapshot()), groupId, password, username)
    {
      if groupId !in groups {
        out := [ToRequester(Error(Handlers.GroupNotFound))];
        return;
      }
      var group := groups[groupId];
      if !Handlers.Admits(group, password) {
        out := [ToRequester(Error(Handlers.IncorrectPassword))];
        return;
      }
      if username !in group.members {
        group := group.(members := group.members + [username]);
        groups := groups[groupId := group];
      }
      out := [ToRequester(GroupJoined(groupId, group.name, group.isPrivate, group.members, group.messages)),
              ToOthers(groupId, UserJoined(username)),
              ToAll(groupId, UpdateMembers(group.members))];
    }

    method SendMessage(conn: Connection, groupId: string, message: string, timestamp: string)
      returns (out: seq<Emit>)
      requires Valid()
      modifies this
      ensures Valid()
      ensures Handlers.Outcome(Snapshot(), out)
           == Handlers.SendMessage(old(Snapshot()), groupId, conn.username, message, timestamp)
    {
      if groupId !in groups {
        out := [];
        return;
      }
      var group := groups[groupId];
      var msg := Message(conn.username, message, timestamp);
      groups := groups[groupId := group.(messages := group.messages + [msg])];
      out := [ToAll(groupId, NewMessage(msg))];
    }

    method Typing(conn: Connection, groupId: string) returns (out: seq<Emit>)
      ensures out == Handlers.Typing(Snapshot(), groupId, conn.username).emits
    {
      out := [ToOthers(groupId, UserTyping(conn.username))];
    }

    method StopTyping(groupId: string) returns (out: seq<Emit>)
      ensures out == Handlers.StopTyping(Snapshot(), groupId).emits
    {
      out := [ToOthers(groupId, UserStoppedTyping)];
    }

    method LeaveGroup(conn: Connection, groupId: string) returns (out: seq<Emit>)
      requires Valid()
      modifies this
      ensures Valid()
      ensures Handlers.Outcome(Snapshot(), out)
           == Handlers.LeaveGroup(old(Snapshot()), groupId, conn.username)
    {
      if groupId !in groups {
        out := [];
        return;
      }
      var group := groups[groupId];
      out := [];
      if Handlers.Truthy(conn.username) && conn.username.value in group.members {
        var name := conn.username.value;
        var members := MemberList.Without(group.members, name);
        groups := groups[groupId := group.(members := members)];
        out := [ToOthers(groupId, UserLeft(name)), ToAll(groupId, UpdateMembers(members))];
      }
    }

    method ListPublicGroups() returns (out: seq<Emit>)
      requires Valid()
      ensures out == Handlers.ListPublicGroups(Snapshot()).emits
    {
      var list := PublicSummaries(groups, order);
      out := [ToRequester(PublicGroups(list))];
    }
  }

  /**
   * A connection as server.js leaves it, with no username: its leave-group
   * changes nothing and emits nothing, whatever group it names.
   */
  method FreshConnectionLeaves(server: ChatServer, groupId: string) returns (out: seq<Emit>)
    requires server.Valid()
    modifies server
    ensures server.Valid()
    ensures out == [] && server.Snapshot() == old(server.Snapshot())
  {
    var conn := new Connection();
    out := server.LeaveGroup(conn, groupId);
  }
}
