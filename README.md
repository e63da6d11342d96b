# Group chat server: registry and socket handlers

A Dafny model of the server half of a small real-time group chat. The server
keeps one in-memory registry, `groups`, mapping a group id to a record
`{name, isPrivate, password, members, messages}`. Every inbound socket event
(`create-group`, `join-group`, `send-message`, `typing`, `stop-typing`,
`leave-group`, `list-public-groups`) is one atomic step on that registry that
also emits events to one of three audiences: the requesting connection,
the rest of the group's room, or the whole room.

Layout:

- `wrappers.dfy` (`Wrappers`): `Option`, standing for JavaScript's
  null/undefined.
- `member_list.dfy` (`MemberList`): the two member-list updates, push-if-absent
  and filter-out, with lemmas on duplicates and order.
- `registry.dfy` (`Registry`): `Message`, `Group`, and the registry `State`.
  `State` holds the map plus the key insertion order that `Object.entries`
  follows. It also holds the invariant `Valid` and the public-group summaries.
- `events.dfy` (`Events`): outbound payloads, their audiences (`Emit`) and
  inbound requests.
- `handlers.dfy` (`Handlers`): each handler as a pure transition
  `State -> Outcome(state, emits)`. It also holds the dispatch `Step`, the
  event-loop fold `Run`, and the lemmas that relate several events.
- `server.dfy` (`Server`): the imperative form. `ChatServer` has the mutable
  `groups` map and one method per handler, and each method is proved equal to
  its transition in `Handlers`. `Connection` holds the per-socket `username`.

Modelling decisions:

- The server reads `socket.username` when it sends, types and leaves, but never
  assigns it. So `Connection.username` starts as `None` and nothing assigns it.
  As a result a message's sender is `None`, `typing` carries `None`, and
  `leave-group` is a no-op in practice (`FreshConnectionLeaves`,
  `NamelessMembersOnlyGrow`). The handlers are still modelled for every value
  of the session name, including the truthiness test: an empty name counts as
  absent.
- The new group id and the message timestamp are parameters. `create-group`
  writes over an existing group with the same id, as the code does.
- The code does less than its event names might suggest, and the model does
  what the code does:
  - `create-group` emits only `group-created`, and that event also carries
    `isPrivate`.
  - `group-joined` carries `isPrivate`.
  - A message's sender is the connection's unset `username`, not the name given
    at join.
  - `disconnect` removes nobody.
  - Members are a list of usernames, not a map keyed by connection.

## Model

| member | source | states |
|---|---|---|
| MemberList.AddIfAbsent | server.js:49-51 | the list gains `x` at its end exactly when `x` was absent; existing members keep their order; a duplicate-free list stays duplicate-free |
| MemberList.Without | server.js:98 | the result holds exactly the old members other than `x`; it is shorter when `x` was present, unchanged when absent, and duplicate-free when the input was |
| MemberList.WithoutIsSubsequence | server.js:98 | the filtered list is an order-preserving subsequence of the old one |
| MemberList.WithoutCounts | server.js:98 | filtering removes every copy of `x` and no copy of any other name |
| MemberList.WithoutUnique | server.js:98 | conversely, any order-preserving selection that drops exactly the copies of `x` equals the filter |
| MemberList.NoDupCardinality | server.js:49-51 | a duplicate-free member list has as many entries as distinct names |
| Registry.Summarise | server.js:113-118 | a public-group entry carries the id, the name, the member count and the message count |
| Registry.PublicSummaries | server.js:111-118 | every entry is a summary of a non-private group among the listed keys; every such group has an entry; keys listed once give entries listed once |
| Handlers.CreateGroup | server.js:21-34 | `groups[g]` becomes the new record with `members == [username]` and no messages, overwriting any group with that id; every other key is unchanged; a new key goes at the end of the key order; exactly one `group-created` goes to the requester; the invariant is kept |
| Handlers.JoinGroup | server.js:37-65 | unknown id: only `error "Group not found"` and no change; private group with a different password: only `error "Incorrect password"` and no change; otherwise the username is appended if absent and nothing else changes; the requester gets `group-joined` with the new members and the unchanged messages, the others get `user-joined`, the room gets `update-members` |
| Handlers.SendMessage | server.js:68-80 | unknown id: no change and no events; otherwise exactly one message `(sender, text, timestamp)` is appended, earlier messages and the group's other fields are unchanged, and the room gets `new-message` |
| Handlers.Typing | server.js:83-85 | no state change; `typing` with the connection's username goes to the rest of the named room |
| Handlers.StopTyping | server.js:87-89 | no state change; `stop-typing` goes to the rest of the named room |
| Handlers.LeaveGroup | server.js:92-102 | state changes only when the group exists and the session name is set, non-empty and a member; then every occurrence is filtered out, the rest of the group is unchanged, and `user-left` and `update-members` are emitted; otherwise no change and no events |
| Handlers.ListPublicGroups | server.js:110-120 | no state change; one `public-groups` event to the requester; in a valid registry it has exactly one correct summary per non-private group |
| Handlers.StepPreservesValid | server.js:21-120 | every handler keeps the invariant: keys listed once in insertion order, and no duplicate member in any group |
| Handlers.RunPreservesValid | server.js:17-121 | any sequence of events keeps that invariant |
| Handlers.StepKeepsHistory | server.js:21-102 | an event that does not recreate group `id` keeps it and its earlier messages, and also its members when the connection has no username |
| Handlers.MessagesOnlyGrow | server.js:78 | over any run that does not recreate the group, its message log only grows at the end |
| Handlers.NamelessMembersOnlyGrow | server.js:97-98 | when no connection has a username, as in server.js, no member is ever removed |
| Handlers.JoinIdempotent | server.js:49-63 | repeating a join with the same arguments leaves the state and the emitted events as after the first |
| Handlers.LeaveKeepsOrder | server.js:98 | leaving keeps the remaining members in their order |
| Handlers.JoinManyAppends | server.js:49-63 | successive joins by distinct new names append them in order, and the last event is `update-members` with the whole list |
| Handlers.CreateThenJoinCount | server.js:21-63 | a creation followed by N joins with distinct new names and the right password leaves N + 1 members, and the last `update-members` has them all |
| Handlers.MemberCountIsDistinct | server.js:49-51 | after any run, every group has as many members as distinct usernames |
| Handlers.WalkThroughCreate | server.js:21-34 | alice creating the public group "Team" on an empty registry gives the record with members `["alice"]` and no messages, and one `group-created` |
| Handlers.JoinEventNames | server.js:40-63 | a failed join emits one event named `error`; a successful one emits `group-joined`, `user-joined` and `update-members`, in that order |
| Handlers.WalkThroughJoin | server.js:49-63 | bob joining alice's public group "Team" gives `group-joined` with `["alice", "bob"]` and no messages, plus `user-joined` and `update-members` |
| Handlers.WalkThroughSend | server.js:68-80 | alice's "hi" is stored and broadcast with no sender |
| Handlers.WalkThroughLeaveAndList | server.js:92-120 | bob's leave-group changes nothing, and the listing shows "Team" with 2 members and 1 message |
| Server.Connection.constructor | server.js:17 | a new connection has no username |
| Server.ChatServer.constructor | server.js:14 | the registry starts empty and valid |
| Server.ChatServer.CreateGroup | server.js:21-34 | the in-place insertion gives the state and events of `Handlers.CreateGroup` |
| Server.ChatServer.JoinGroup | server.js:37-65 | the in-place push gives the state and events of `Handlers.JoinGroup` |
| Server.ChatServer.SendMessage | server.js:68-80 | the in-place append, with the connection's `username` as sender, gives `Handlers.SendMessage` |
| Server.ChatServer.Typing | server.js:83-85 | emits what `Handlers.Typing` emits, without changing anything |
| Server.ChatServer.StopTyping | server.js:87-89 | emits what `Handlers.StopTyping` emits, without changing anything |
| Server.ChatServer.LeaveGroup | server.js:92-102 | reassigning the filtered member list gives `Handlers.LeaveGroup` for the connection's `username` |
| Server.ChatServer.ListPublicGroups | server.js:110-120 | emits the public-group snapshot of `Handlers.ListPublicGroups` |
| Server.FreshConnectionLeaves | server.js:92-102 | a connection without a username leaves nothing and emits nothing |

## Left out

- Express static serving, the HTTP server, `listen` and the port (server.js:1-11, 128-132): process and I/O set-up.
- Socket.io room membership (`socket.join`, `socket.leave`): each emission is recorded with its audience, and the transport that delivers it is not modelled. So the model does not capture that `leave-group` calls `socket.leave` before it emits.
- `generateId` (server.js:124-126) is `Math.random`-based: the new id is a parameter and may collide.
- `new Date().toISOString()` (server.js:75): the timestamp is an opaque string parameter.
- The `disconnect` handler (server.js:105-107) and every `console.log`: they only log.
- Concurrency: Node's event loop runs one handler at a time, so each event is one atomic step (`Run`).
- JavaScript's dynamic typing: the arguments are taken to be strings and booleans as the client sends them. Truthiness is modelled only where the code tests it (`if (!group)`, `socket.username &&`).
- Keys inherited from `Object.prototype` (such as `"constructor"`) are not modelled: the registry is a plain map, so the model treats such an id as unknown. In the code the lookup finds the inherited value. `join-group` then passes the password test (server.js:44, `isPrivate` is undefined) and throws a TypeError at `group.members.includes` (server.js:49), where the model emits `error "Group not found"`. `send-message` throws a TypeError at `group.messages.push` (server.js:78), where the model drops the event silently. `leave-group` calls `socket.leave`, the unset `socket.username` stops the test at server.js:97, and it returns quietly, which is what the model does.
- Handlers.ListPublicGroups: lists groups in key insertion order. A JavaScript object lists integer-like keys (such as an id `"123456"`) first, in numeric order, and the model does not reproduce that ordering.
- The client (public/script.js), including its form validation: UI code, not server state.
