/**
 * The socket events of server.js: what a connection sends in, and what the
 * server emits back, with the audience each emission is addressed to.
 */
module Events {
  import opened Wrappers
  import opened Registry

  /** The payload of each outbound event; `EventName` gives its wire name. */
  datatype Payload =
    | GroupCreated(groupId: string, groupName: string, isPrivate: bool)
    | GroupJoined(groupId: string, groupName: string, isPrivate: bool,
                  members: seq<string>, messages: seq<Message>)
    | Error(reason: string)
    | UserJoined(username: string)
    | UpdateMembers(members: seq<string>)
    | NewMessage(message: Message)
    | UserTyping(typist: Option<string>)
    | UserStoppedTyping
    | UserLeft(leaver: string)
    | PublicGroups(summaries: seq<Summary>)

  function EventName(p: Payload): string
  {
    match p
    case GroupCreated(_, _, _) => "group-created"
    case GroupJoined(_, _, _, _, _) => "group-joined"
    case Error(_) => "error"
    case UserJoined(_) => "user-joined"
    case UpdateMembers(_) => "update-members"
    case NewMessage(_) => "new-message"
    case UserTyping(_) => "typing"
    case UserStoppedTyping => "stop-typing"
    case UserLeft(_) => "user-left"
    case PublicGroups(_) => "public-groups"
  }

  /**
   * One emission and its audience: `socket.emit` (the requester only),
   * `socket.to(room).emit` (the room without the requester) and
   * `io.to(room).emit` (the whole room).
   */
  datatype Emit =
    | ToRequester(payload: Payload)
    | ToOthers(room: string, payload: Payload)
    | ToAll(room: string, payload: Payload)

  /**
   * One inbound event with its arguments. The id a new group gets and the
   * time a message is received are chosen by the server; they arrive here as
   * arguments.
   */
  datatype Request =
    | CreateGroupReq(newId: string, groupName: string, isPrivate: bool,
                     password: Option<string>, username: string)
    | JoinGroupReq(groupId: string, password: Option<string>, username: string)
    | SendMessageReq(groupId: string, message: string, timestamp: string)
    | TypingReq(groupId: string)
    | StopTypingReq(groupId: string)
    | LeaveGroupReq(groupId: string)
    | ListPublicGroupsReq

  /** A request as it reaches the server: from a connection whose `username` is `session`. */
  datatype Inbound = Inbound(session: Option<string>, request: Request)
}
